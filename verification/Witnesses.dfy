/**
 One small document that the completeness check accepts and one bundle for it that the bundle check accepts, so that
 what is proved of accepted documents is not proved of none.
 */
module Witnesses {
  import opened Collections
  import opened Wrappers
  import opened Refs
  import opened Coverage
  import opened Semantics
  import opened Completeness
  import opened CanonicalJson
  import opened JsonValues
  import opened BundleDigests
  import Bundle
  import JsonPointer

  // ----- one of each ---------------------------------------------------------------------------

  lemma {:induction false} IndexOne<T>(x: T, key: T -> string)
    ensures Index([x], key) == map[key(x) := x] && Ids([x], key) == [key(x)]
  {
    assert [x][..0] == [];
    assert Index([x][..0], key) == map[];
  }

  lemma {:induction false} UnionOne<T>(x: T, part: T -> set<string>)
    ensures UnionOver([x], part) == part(x)
  {
    assert [x][..0] == [];
    assert UnionOver([x][..0], part) == {};
  }

  const MEMBER := TypedRef(Kind.SourceMember, "s", "m")
  const ARTIFACT := TypedRef(Kind.SourceArtifact, "s", "a")
  const INPUT := TypedRef(Kind.TestInput, "s", "i")
  const COMPONENT := TypedRef(Kind.Component, "s", "c")

  const OUTER_MEMBER := OuterMember("m", "g", "f", "verified", ["a"])
  const OUTER_ARTIFACT := OuterArtifact("a", "log", ["g"], ["f"], ["m"], "", Some(SemanticsRef("s", ["c"], ["o"])))
  const OUTER_INPUT := OuterInput("i", "a", ["m"])

  const SOURCE_MEMBER := SourceMember.SourceMember("m", "g", "f", "verified", [ARTIFACT])
  const SOURCE_ARTIFACT := SourceArtifact.SourceArtifact("a", "log", ["g"], ["f"], External("d"), [MEMBER])
  const TEST_INPUT :=
    TestInput.TestInput("i", [MEMBER], ARTIFACT, HttpInput("http-request-template", "GET", "", "", "", "k"))
  const OBLIGATION := Obligation("o", COMPONENT, [INPUT], true)
  const ONE_COMPONENT := Component.Component("c", [INPUT], [MEMBER])

  const CG := Document(Some([OUTER_MEMBER]), Some([OUTER_ARTIFACT]), Some([OUTER_INPUT]))
  const SEMANTICS := Semantics("attack-semantics", 1, "d", "s", 1, 1, [SOURCE_MEMBER], [SOURCE_ARTIFACT], [TEST_INPUT],
                               [OBLIGATION], [], [ONE_COMPONENT], [])

  // ----- the completeness check ----------------------------------------------------------------

  const INDEXES := Indexes(map["m" := OUTER_MEMBER], map["a" := OUTER_ARTIFACT], map["i" := OUTER_INPUT],
                           map["m" := SOURCE_MEMBER], map["a" := SOURCE_ARTIFACT], map["i" := TEST_INPUT], {"c"}, {"o"})

  lemma {:induction false} WitnessIndexes()
    ensures IndexesOf(CG, SEMANTICS) == INDEXES && Identities(CG, SEMANTICS)
    ensures Ids(SEMANTICS.obligations, ObligationKey) == ["o"]
  {
    hide Index, Ids;
    IndexOne(OUTER_MEMBER, OuterMemberKey);
    IndexOne(OUTER_ARTIFACT, OuterArtifactKey);
    IndexOne(OUTER_INPUT, OuterInputKey);
    IndexOne(SOURCE_MEMBER, MemberKey);
    IndexOne(SOURCE_ARTIFACT, ArtifactKey);
    IndexOne(TEST_INPUT, InputKey);
    IndexOne(OBLIGATION, ObligationKey);
    IndexOne(ONE_COMPONENT, ComponentKey);
  }

  lemma {:induction false} WitnessRequirements()
    ensures Requirements("s", [ONE_COMPONENT], [], COMPONENT) == Ok(Found({"i"}, {"m"}))
  {
    IndexOne(ONE_COMPONENT, ComponentKey);
    assert Index<Group>([], Coverage.GroupKey) == map[];
    var c := ONE_COMPONENT;
    assert c.inputRefs[0].id == "i" && c.sourceMemberRefs[0].id == "m";
    assert (set i | 0 <= i < |c.inputRefs| :: c.inputRefs[i].id) == {"i"};
    assert (set i | 0 <= i < |c.sourceMemberRefs| :: c.sourceMemberRefs[i].id) == {"m"};
  }

  lemma {:induction false} WitnessSets()
    ensures RepresentedMembers(SEMANTICS) == {"m"} && UnsupportedMembers(SEMANTICS) == {}
    ensures RepresentedArtifacts(SEMANTICS) == {"a"} && UnsupportedArtifacts(SEMANTICS) == {}
    ensures RepresentedInputs(SEMANTICS) == {"i"} && UnsupportedInputs(SEMANTICS) == {}
  {
    hide UnionOver;
    UnionOne(TEST_INPUT, InputMembers);
    UnionOne(TEST_INPUT, InputArtifact);
    UnionOne(TEST_INPUT, InputItself);
    NoUnion(DimensionMembers);
    NoUnion(DimensionArtifacts);
    NoUnion(DimensionInputs);
    assert TEST_INPUT.sourceMemberRefs[0].id == "m";
    assert InputMembers(TEST_INPUT) == {"m"};
  }

  lemma {:induction false} NoUnion<T>(part: T -> set<string>)
    ensures UnionOver([], part) == {}
  {
  }

  lemma {:induction false} ClaimsOne(x: Indexes, a: SourceArtifact, ref: SemanticsRef)
    requires a.artifactId in x.outerArtifacts && x.outerArtifacts[a.artifactId].semanticsRef == Some(ref)
    ensures Claims(x, [a]) == ({a.artifactId}, set c | c in ref.componentIds, set o | o in ref.obligationIds)
  {
    assert [a][..0] == [] && Claims(x, [a][..0]) == ({}, {}, {});
    var (claimers, components, obligations) := Claims(x, [a]);
    assert claimers == {a.artifactId};
    assert components == (set c | c in ref.componentIds) && obligations == (set o | o in ref.obligationIds);
  }

  lemma {:induction false} WitnessClaims()
    ensures Claims(INDEXES, SEMANTICS.artifacts) == ({"a"}, {"c"}, {"o"})
    ensures Distinct(WorkKeys(SEMANTICS.obligations))
  {
    ClaimsOne(INDEXES, SOURCE_ARTIFACT, SemanticsRef("s", ["c"], ["o"]));
    assert (set c | c in ["c"]) == {"c"} && (set o | o in ["o"]) == {"o"};
    assert SEMANTICS.obligations[..0] == [] && WorkKeys([]) == [];
    assert |WorkKeys(SEMANTICS.obligations)| == 1;
  }

  lemma {:induction false} WitnessAgrees()
    ensures MemberAgrees(INDEXES, SEMANTICS, SOURCE_MEMBER) && ArtifactAgrees(INDEXES, SEMANTICS, SOURCE_ARTIFACT)
    ensures InputAgrees(INDEXES, SEMANTICS, TEST_INPUT) && ObligationAgrees(INDEXES, SEMANTICS, OBLIGATION)
  {
    hide Requirements;
    WitnessRequirements();
    assert RefIds([MEMBER]) == ["m"] && RefIds([ARTIFACT]) == ["a"] && RefIds([INPUT]) == ["i"];
    assert multiset(["i"]) == multiset({"i"});
  }

  /** The completeness check accepts a document with one member, one artifact that claims its semantics, one input,
      and one obligation that covers it. */
  lemma {:induction false} CompleteDocument()
    ensures Complete(CG, SEMANTICS)
  {
    hide IndexesOf, Identities, MemberAgrees, ArtifactAgrees, InputAgrees, ObligationAgrees, Claims, WorkKeys, Index,
         Ids;
    hide RepresentedMembers, RepresentedArtifacts, RepresentedInputs;
    hide UnsupportedMembers, UnsupportedArtifacts, UnsupportedInputs;
    WitnessIndexes();
    WitnessSets();
    WitnessClaims();
    WitnessAgrees();
  }

  // ----- the bundle check ----------------------------------------------------------------------

  const RULES := TypedRef(Kind.BundleArtifact, "b", "r")
  const DIRECTIVE := Bundle.Directive("d", RULES)
  const MAPPING := Bundle.Mapping("o", [COMPONENT], [MEMBER], [RULES], [TypedRef(Kind.Directive, "b", "d")], "exact")
  const GROUP := Bundle.AtomicGroup("g", [RULES], Bundle.GROUP_HANDLING)
  const DOCUMENT := map["primary_candidate" := Object(map["candidate_id" := Text("p")])]
  const PLACE := ResultPlace("main", "results", "cg", "k")

  function Contents(): map<string, string> { map["r" := "{}"] }

  function BundleArtifactOf(c: Codecs): Bundle.BundleArtifact {
    var uri := "janus-result-internal:" + c.queryEscape("result") + "#" + JsonPointer.ContentPointer("r");
    Bundle.BundleArtifact("r", 0, Locator(uri, c.digest("{}"), "application/json", c.size("{}"), true),
                          TypedRef(Kind.AtomicGroup, "b", "g"), [])
  }

  const OUTPUT_DIGEST := "sha256:" + seq(64, _ => '0')

  /** A bundle of one artifact, in one group, that maps the one obligation. */
  ghost function WitnessBundle(c: Codecs): Bundle.CandidateBundle {
    var text := Canonical(c.encoders, Null);
    var binding := Binding("attack-semantics", "s", 1, "d",
                           Locator(PlaceUri(c, PLACE), c.digest(text), "application/json", c.size(text), true));
    Bundle.CandidateBundle(
      "candidate-bundle@1.0", Bundle.DIGEST_PROFILE, "waf",
      DigestAny(c, CandidatePreimage(DOCUMENT)), DigestAny(c, BundlePreimage(DOCUMENT)), binding, "b",
      [BundleArtifactOf(c)], [DIRECTIVE], [MAPPING], [RULES], Bundle.UNIT_HANDLING, [GROUP],
      [Bundle.ProvenanceStep(0, OUTPUT_DIGEST)])
  }

  function WitnessSubmission(): Bundle.Submission {
    Bundle.Submission(DOCUMENT, Contents(), "result", PLACE, Null, SEMANTICS)
  }

  lemma {:induction false} WitnessIndex(c: Codecs)
    ensures Index([BundleArtifactOf(c)], Bundle.ArtifactKey) == map["r" := BundleArtifactOf(c)]
    ensures Ids([BundleArtifactOf(c)], Bundle.ArtifactKey) == ["r"]
    ensures Index([DIRECTIVE], Bundle.DirectiveKey).Keys == {"d"} && Ids([DIRECTIVE], Bundle.DirectiveKey) == ["d"]
    ensures Index([OBLIGATION], ObligationKey) == map["o" := OBLIGATION]
    ensures Ids([MAPPING], Bundle.MappingKey) == ["o"] && Ids([GROUP], Bundle.GroupKey) == ["g"]
  {
    hide Index, Ids;
    IndexOne(BundleArtifactOf(c), Bundle.ArtifactKey);
    IndexOne(DIRECTIVE, Bundle.DirectiveKey);
    IndexOne(OBLIGATION, ObligationKey);
    IndexOne(MAPPING, Bundle.MappingKey);
    IndexOne(GROUP, Bundle.GroupKey);
  }

  lemma {:induction false} OneRef(ref: TypedRef, kind: Kind, scope: string, index: set<string>)
    requires ref.kind == kind && ref.scope == scope && ref.id in index
    ensures Checked([ref], kind, scope, index) && RefIds([ref]) == [ref.id]
            && multiset(RefIds([ref])) == multiset{ref.id}
  {
    assert RefIds([ref]) == [ref.id];
  }

  lemma {:induction false} WitnessMapping(c: Codecs, b: Bundle.CandidateBundle, index: map<string,
                                          Bundle.BundleArtifact>)
    requires b.bundleId == "b" && b.directives == [DIRECTIVE] && b.mappings == [MAPPING] && index.Keys == {"r"}
    ensures Bundle.MappingsAgree(b, SEMANTICS, index)
  {
    hide Index, Ids, Requirements, Checked;
    WitnessIndex(c);
    WitnessRequirements();
    OneRef(MEMBER, Kind.SourceMember, "s", {"m"});
    OneRef(RULES, Kind.BundleArtifact, "b", {"r"});
    OneRef(TypedRef(Kind.Directive, "b", "d"), Kind.Directive, "b", {"d"});
    assert Bundle.MappingAgrees(b, SEMANTICS, index, MAPPING);
  }

  lemma {:induction false} WitnessPlaces(c: Codecs, b: Bundle.CandidateBundle, index: map<string,
                                         Bundle.BundleArtifact>)
    requires b.bundleId == "b" && b.groups == [GROUP] && index == map["r" := BundleArtifactOf(c)]
    ensures Bundle.GroupsAgree(b, index) && Bundle.ArtifactPlaced(b, index, BundleArtifactOf(c))
  {
    hide Index, Ids, Checked;
    WitnessIndex(c);
    OneRef(RULES, Kind.BundleArtifact, "b", {"r"});
    assert b.groups[..0] == [] && Bundle.Memberships(b.groups[..0], "r") == 0;
    assert index.Keys == {"r"};
    assert GROUP.artifactRefs[0].id == "r" && b.groups[0].atomicGroupId == "g";
    assert Checked([], Kind.BundleArtifact, "b", {"r"}) by {
      NoRefs(Kind.BundleArtifact, "b", {"r"});
    }
  }

  lemma {:induction false} NoRefs(kind: Kind, scope: string, index: set<string>)
    ensures Checked([], kind, scope, index)
  {
  }

  lemma {:induction false} WitnessArtifacts(c: Codecs, b: Bundle.CandidateBundle, index: map<string,
                                            Bundle.BundleArtifact>)
    requires b.bundleId == "b" && b.artifacts == [BundleArtifactOf(c)] && b.directives == [DIRECTIVE]
    requires b.unitRefs == [RULES] && b.unitHandling == Bundle.UNIT_HANDLING && index == map["r" := BundleArtifactOf(c)]
    ensures Bundle.ArtifactsAgree(c, b, Contents(), "result")
    ensures Bundle.UnitAgrees(b, index) && Bundle.DirectivesAgree(b, index)
  {
    hide Index, Ids, Checked, JsonPointer.ContentPointer;
    WitnessIndex(c);
    OneRef(RULES, Kind.BundleArtifact, "b", {"r"});
    assert index.Keys == {"r"} && multiset({"r"}) == multiset{"r"};
  }

  lemma {:induction false} WitnessBody(c: Codecs)
    ensures Bundle.BodyAgrees(c, WitnessBundle(c), Contents(), "result", SEMANTICS)
  {
    hide Index, Bundle.MappingsAgree, Bundle.GroupsAgree, Bundle.ArtifactPlaced, Bundle.ArtifactsAgree,
         Bundle.UnitAgrees;
    hide Bundle.DirectivesAgree, BundleArtifactOf;
    var b := WitnessBundle(c);
    var index := map["r" := BundleArtifactOf(c)];
    WitnessIndex(c);
    WitnessMapping(c, b, index);
    WitnessPlaces(c, b, index);
    WitnessArtifacts(c, b, index);
  }

  /** Whatever the codecs are, the bundle check accepts a bundle for that document; and if digests are never empty, as
      SHA-256 digests are not, it has a non-empty digest. */
  lemma {:induction false} AcceptedBundle(c: Codecs)
    ensures Bundle.Accepted(c, WitnessBundle(c), WitnessSubmission())
    ensures (forall text :: c.digest(text) != "") ==> WitnessBundle(c).bundleDigest != ""
  {
    hide Bundle.BodyAgrees, Canonical;
    WitnessBody(c);
    WritableDocument(c);
  }

  lemma {:induction false} WritableDocument(c: Codecs)
    ensures Writable(c.encoders, BundlePreimage(DOCUMENT))
  {
    var candidate := map["candidate_id" := Text("p")];
    assert DOCUMENT["primary_candidate"] == Object(candidate);
    forall k | k in (candidate - {"candidate_digest"})
      ensures Writable(c.encoders, (candidate - {"candidate_digest"})[k]) {
      assert candidate[k] == Text("p");
    }
    assert Writable(c.encoders, CandidatePreimage(DOCUMENT));
  }
}
