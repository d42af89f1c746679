/**
 The digests and the semantics binding of a candidate bundle (api/shared_contract_v2.go): what is signed, and what equal
 digests say about two documents. SHA-256, the escaping of path segments and the number encoder are parameters.
 */
module BundleDigests {
  import opened CanonicalJson
  import opened Collections
  import opened JsonValues
  import opened Semantics

  /** sha256Value, the length of a text in UTF-8, the two escapings of net/url, and the writer's encoders. */
  datatype Codecs = Codecs(
    digest: string -> string, size: string -> int, queryEscape: string -> string, pathEscape: string -> string,
    encoders: Encoders)

  /** digestAny: the digest of the canonical text, empty where there is none. */
  ghost function DigestAny(c: Codecs, v: Json): string {
    if Writable(c.encoders, v) then c.digest(Canonical(c.encoders, v)) else ""
  }

  method ComputeDigest(c: Codecs, v: Json) returns (digest: string)
    ensures digest == DigestAny(c, v)
  {
    var text := Marshal(c.encoders, v);
    return if text.None? then "" else c.digest(text.value);
  }

  /** mapValue: what is no object counts as an empty one. */
  function FieldsOf(v: Json): map<string, Json> {
    if v.Object? then v.fields else map[]
  }

  function MemberOf(document: map<string, Json>, key: string): Json {
    if key in document then document[key] else Null
  }

  /** The primary candidate without its own digest. */
  function CandidatePreimage(document: map<string, Json>): Json {
    Object(FieldsOf(MemberOf(document, "primary_candidate")) - {"candidate_digest"})
  }

  /** The document without its own digest and without that of the candidate. */
  function BundlePreimage(document: map<string, Json>): Json {
    var unsigned := document - {"bundle_digest"};
    if "primary_candidate" in unsigned && unsigned["primary_candidate"].Object? then
      Object(unsigned["primary_candidate" := CandidatePreimage(document)])
    else Object(unsigned)
  }

  // ----- the semantics binding -----------------------------------------------------------------

  datatype Locator = Locator(uri: string, digest: string, mediaType: string, byteLength: int, immutable: bool)

  datatype Binding = Binding(
    contractId: string, semanticsId: string, semanticsRevision: int, semanticsDigest: string, locator: Locator)

  /** Where the Check Generation result is stored. */
  datatype ResultPlace = ResultPlace(catalog: string, schema: string, table: string, key: string)

  function PlaceUri(c: Codecs, place: ResultPlace): string {
    "databricks-result:///" + c.pathEscape(place.catalog) + "/" + c.pathEscape(place.schema) + "/"
    + c.pathEscape(place.table) + "/" + c.pathEscape(place.key)
  }

  /** The binding names these semantics and the canonical text of this Check Generation document at its place. */
  ghost predicate BindingAgrees(c: Codecs, binding: Binding, place: ResultPlace, cg: Json, s: Semantics) {
    && Writable(c.encoders, cg)
    && binding.contractId == s.contractId && binding.semanticsId == s.semanticsId
    && binding.semanticsRevision == s.semanticsRevision && binding.semanticsDigest == s.semanticsDigest
    && var text := Canonical(c.encoders, cg);
    binding.locator == Locator(PlaceUri(c, place), c.digest(text), "application/json", c.size(text), true)
  }

  method CheckBinding(c: Codecs, binding: Binding, place: ResultPlace, cg: Json, s: Semantics) returns (ok: bool)
    ensures ok <==> BindingAgrees(c, binding, place, cg, s)
  {
    var text := Marshal(c.encoders, cg);
    var uri := "databricks-result:///" + c.pathEscape(place.catalog) + "/" + c.pathEscape(place.schema) + "/"
               + c.pathEscape(place.table) + "/" + c.pathEscape(place.key);
    if text.None? || binding.contractId != s.contractId || binding.semanticsId != s.semanticsId
       || binding.semanticsRevision != s.semanticsRevision || binding.semanticsDigest != s.semanticsDigest
    {
      return false;
    }
    var locator := binding.locator;
    ok := locator.uri == uri && locator.digest == c.digest(text.value) && locator.byteLength == c.size(text.value)
          && locator.mediaType == "application/json" && locator.immutable;
  }

  // ----- what equal digests say ----------------------------------------------------------------

  /** The digests sign everything but themselves: each member of the document, other than the bundle's digest and the
      candidate, stands in what is signed as it is, and so does each member of the candidate other than its digest; and
      the two digests can be anything. */
  lemma {:induction false} SignsAllButItself(document: map<string, Json>, key: string, candidate: map<string, Json>,
                                             digest: Json)
    requires "primary_candidate" in document && document["primary_candidate"] == Object(candidate)
    ensures BundlePreimage(document).Object? && CandidatePreimage(document).Object?
    ensures var signed, part := BundlePreimage(document).fields, CandidatePreimage(document).fields;
            && "bundle_digest" !in signed && "candidate_digest" !in part
            && (key != "bundle_digest" && key != "primary_candidate" ==>
                  (key in signed <==> key in document) && (key in document ==> signed[key] == document[key]))
            && "primary_candidate" in signed && signed["primary_candidate"] == Object(part)
            && (key != "candidate_digest" ==>
                  (key in part <==> key in candidate) && (key in candidate ==> part[key] == candidate[key]))
    ensures BundlePreimage(document["bundle_digest" := digest]) == BundlePreimage(document)
    ensures var other := document["primary_candidate" := Object(candidate["candidate_digest" := digest])];
            BundlePreimage(other) == BundlePreimage(document) && CandidatePreimage(other) == CandidatePreimage(document)
  {
    assert |"primary_candidate"| != |"bundle_digest"|;
    var other := document["primary_candidate" := Object(candidate["candidate_digest" := digest])];
    assert candidate["candidate_digest" := digest] - {"candidate_digest"} == candidate - {"candidate_digest"};
    assert (document["bundle_digest" := digest]) - {"bundle_digest"} == document - {"bundle_digest"};
    assert BundlePreimage(other).fields == BundlePreimage(document).fields;
  }

  /** Where escaped parts hold no separator and escaping tells them apart, the place of a result is told by its URI. */
  lemma {:induction false} UriTellsPlace(c: Codecs, a: ResultPlace, b: ResultPlace)
    requires forall part: string :: '/' !in c.pathEscape(part)
    requires forall x: string, y: string :: c.pathEscape(x) == c.pathEscape(y) ==> x == y
    ensures PlaceUri(c, a) == PlaceUri(c, b) <==> a == b
    ensures "databricks-result:///" <= PlaceUri(c, a)
  {
    var scheme := "databricks-result:///";
    var p, q := c.pathEscape(a.catalog), c.pathEscape(b.catalog);
    var r, s := c.pathEscape(a.schema), c.pathEscape(b.schema);
    var t, u := c.pathEscape(a.table), c.pathEscape(b.table);
    var x, y := c.pathEscape(a.key), c.pathEscape(b.key);
    UriParts(c, a);
    UriParts(c, b);
    hide PlaceUri;
    if PlaceUri(c, a) == PlaceUri(c, b) {
      Peel(scheme, p + "/" + (r + "/" + (t + "/" + x)), q + "/" + (s + "/" + (u + "/" + y)));
      UpToSeparator(p, r + "/" + (t + "/" + x), q, s + "/" + (u + "/" + y));
      UpToSeparator(r, t + "/" + x, s, u + "/" + y);
      UpToSeparator(t, x, u, y);
    }
  }

  lemma {:induction false} UriParts(c: Codecs, a: ResultPlace)
    ensures PlaceUri(c, a)
         == "databricks-result:///"
            + (c.pathEscape(a.catalog) + "/"
               + (c.pathEscape(a.schema) + "/" + (c.pathEscape(a.table) + "/" + c.pathEscape(a.key))))
  {
    Joined("databricks-result:///", c.pathEscape(a.catalog), c.pathEscape(a.schema), c.pathEscape(a.table),
           c.pathEscape(a.key), "/");
  }

  lemma {:induction false} Joined(scheme: string, p: string, q: string, r: string, x: string, slash: string)
    ensures scheme + p + slash + q + slash + r + slash + x
         == scheme + (p + slash + (q + slash + (r + slash + x)))
  {
  }

  lemma {:induction false} UpToSeparator(a: string, x: string, b: string, y: string)
    requires '/' !in a && '/' !in b && a + "/" + x == b + "/" + y
    ensures a == b && x == y
  {
    var s := a + "/" + x;
    assert s[|a|] == '/' && s[..|a|] == a && s[|a| + 1..] == x;
    assert (b + "/" + y)[|b|] == '/' && s[..|b|] == b && s[|b| + 1..] == y;
  }

  /** Two different canonical texts with one digest. */
  ghost predicate Collide(c: Codecs, a: Json, b: Json) {
    && Writable(c.encoders, a) && Writable(c.encoders, b)
    && Canonical(c.encoders, a) != Canonical(c.encoders, b)
    && c.digest(Canonical(c.encoders, a)) == c.digest(Canonical(c.encoders, b))
  }

  /** Documents have one non-empty digest only if they are the same up to the spelling of their numbers, or their texts
      are a collision. */
  lemma {:induction false} DigestPins(c: Codecs, a: Json, b: Json)
    requires Faithful(c.encoders) && DigestAny(c, a) == DigestAny(c, b) != ""
    ensures Collide(c, a, b) || (Writable(c.encoders, a) && Writable(c.encoders, b) && Equivalent(c.encoders, a, b))
  {
    hide Faithful, Canonical, Equivalent, Writable;
    CanonicalIsInjective(c.encoders, a, b);
  }

  /** And documents that are the same up to the spelling of their numbers always have one digest. */
  lemma {:induction false} EquivalentDigest(c: Codecs, a: Json, b: Json)
    requires Equivalent(c.encoders, a, b)
    ensures DigestAny(c, a) == DigestAny(c, b)
  {
    hide Canonical;
    EquivalentIsWritable(c.encoders, a, b);
    if Writable(c.encoders, a) {
      EquivalentIsWrittenAlike(c.encoders, a, b);
    }
  }

  lemma {:induction false} EquivalentIsWritable(e: Encoders, a: Json, b: Json)
    requires Equivalent(e, a, b)
    ensures Writable(e, a) <==> Writable(e, b)
    decreases a
  {
    match a
    case Array(items) =>
      forall i | 0 <= i < |items| ensures Writable(e, items[i]) <==> Writable(e, b.items[i]) {
        EquivalentIsWritable(e, items[i], b.items[i]);
      }
    case Object(fields) =>
      forall k | k in fields ensures Writable(e, fields[k]) <==> Writable(e, b.fields[k]) {
        EquivalentIsWritable(e, fields[k], b.fields[k]);
      }
    case _ =>
  }

  /** What is signed with the bundle contains what is signed with the candidate. */
  lemma {:induction false} CandidateIsSigned(e: Encoders, a: map<string, Json>, b: map<string, Json>)
    requires Equivalent(e, BundlePreimage(a), BundlePreimage(b))
    ensures Equivalent(e, CandidatePreimage(a), CandidatePreimage(b))
  {
    var key := "primary_candidate";
    assert |"primary_candidate"| != |"bundle_digest"|;
    var x, y := BundlePreimage(a).fields, BundlePreimage(b).fields;
    assert key in x <==> key in a;
    assert key in y <==> key in b;
    if key in a {
      assert Equivalent(e, x[key], y[key]);
    }
  }
}
