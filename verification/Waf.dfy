/**
 prepareSharedWAF of api/shared_contract_v2.go: a rule document compiled to Boolean alternatives that may be bound to
 routes. Compiling patterns and lower-casing are parameters.
 */
module Waf {
  import opened Collections
  import opened Wrappers
  import opened Refs
  import opened Coverage
  import opened Semantics

  // ----- routes --------------------------------------------------------------------------------

  datatype RouteBinding = RouteBinding(
    kind: string, verb: string, pathKey: string, scheme: string, authority: string, path: string)

  /** validSharedRouteBinding. */
  predicate ValidRoute(r: RouteBinding) {
    && r.verb != ""
    && if r.kind == "opaque-path-key" then r.pathKey != "" && r.path == "" && r.scheme == "" && r.authority == ""
       else r.kind == "rendered-http-route" && r.path != "" && r.pathKey == ""
  }

  function OpaqueRoute(verb: string, pathKey: string): RouteBinding {
    RouteBinding("opaque-path-key", verb, pathKey, "", "", "")
  }

  function RenderedRoute(verb: string, scheme: string, authority: string, path: string): RouteBinding {
    RouteBinding("rendered-http-route", verb, "", scheme, authority, path)
  }

  /** sharedInputRoute. */
  function InputRoute(i: HttpInput): Option<RouteBinding> {
    if i.modality == "http-request-template" then
      var r := OpaqueRoute(i.verb, i.pathKey);
      if ValidRoute(r) then Some(r) else None
    else if i.modality == "http-request" then
      var r := RenderedRoute(i.verb, i.scheme, i.authority, i.path);
      if ValidRoute(r) then Some(r) else None
    else None
  }

  /** sharedRouteApplies. */
  predicate RouteApplies(bound: RouteBinding, actual: RouteBinding) {
    && bound.kind == actual.kind && bound.verb == actual.verb
    && if bound.kind == "opaque-path-key" then bound.pathKey == actual.pathKey
       else bound.scheme == actual.scheme && bound.authority == actual.authority && bound.path == actual.path
  }

  /** The route executeSharedCase asks about: that of a template, or that of a rendered request. */
  ghost predicate ExecutedRoute(r: RouteBinding) {
    r == OpaqueRoute(r.verb, r.pathKey) || r == RenderedRoute(r.verb, r.scheme, r.authority, r.path)
  }

  /** A valid bound route applies to exactly the executed route it is equal to: the fields that are not compared are
      empty on both sides. */
  lemma {:induction false} AppliesIsEquality(bound: RouteBinding, actual: RouteBinding)
    requires ValidRoute(bound) && ExecutedRoute(actual)
    ensures RouteApplies(bound, actual) <==> bound == actual
  {
    assert actual.kind == "opaque-path-key" || actual.kind == "rendered-http-route";
    assert "opaque-path-key"[0] != "rendered-http-route"[0];
  }

  // ----- documents -----------------------------------------------------------------------------

  datatype Rule = Rule(
    ruleId: string, componentId: string, carrier: string, name: string, pattern: string, flags: seq<string>,
    transformations: seq<string>)

  datatype CarrierBinding = CarrierBinding(componentId: string, carrier: string, name: string)

  /** The input references are None where the document has none, which is not the same as an empty list. */
  datatype ComponentBinding = ComponentBinding(componentId: string, inputRefs: Option<seq<TypedRef>>)

  datatype RouteAlternative = RouteAlternative(
    alternativeId: string, componentIds: seq<string>, bindings: seq<ComponentBinding>, route: RouteBinding)

  datatype RuleDocument = RuleDocument(
    ruleSetId: string, action: string, placementMode: string, coverage: seq<seq<string>>,
    routeAlternatives: seq<RouteAlternative>, rules: seq<Rule>)

  datatype CarrierDocument = CarrierDocument(ruleSetId: string, bindings: seq<CarrierBinding>)

  /** An artifact of the application unit, decoded; None where decoding fails. */
  datatype UnitArtifact =
    | MatchRule(rules: Option<RuleDocument>)
    | ConfigurationFragment(carriers: Option<CarrierDocument>)
    | OtherKind

  datatype CompiledRule = CompiledRule(
    ruleId: string, carrier: string, name: string, pattern: string, transformations: seq<string>)

  datatype Alternative = Alternative(componentIds: seq<string>, route: Option<RouteBinding>)

  datatype PreparedWaf = PreparedWaf(rules: map<string, CompiledRule>, alternatives: seq<Alternative>)

  /** strings.ToLower, and whether regexp.Compile accepts a pattern. */
  datatype Compiler = Compiler(lower: string -> string, compiles: string -> bool)

  const NUL: string := [0 as char]

  // ----- rules and carrier bindings ------------------------------------------------------------

  function Key3(component: string, carrier: string, name: string): string {
    component + NUL + carrier + NUL + name
  }

  function JoinedKey(c: Compiler, componentId: string, carrier: string, name: string): string {
    Key3(componentId, carrier, c.lower(name))
  }

  function CarrierKey(c: Compiler, b: CarrierBinding): string {
    JoinedKey(c, b.componentId, b.carrier, b.name)
  }

  function RuleKey(c: Compiler, r: Rule): string {
    JoinedKey(c, r.componentId, r.carrier, r.name)
  }

  function CarrierKeys(c: Compiler, bindings: seq<CarrierBinding>): (keys: seq<string>)
    ensures |keys| == |bindings| && forall i :: 0 <= i < |keys| ==> keys[i] == CarrierKey(c, bindings[i])
  {
    seq(|bindings|, i requires 0 <= i < |bindings| => CarrierKey(c, bindings[i]))
  }

  function Components(rules: seq<Rule>): (ids: seq<string>)
    ensures |ids| == |rules| && forall i :: 0 <= i < |ids| ==> ids[i] == rules[i].componentId
  {
    seq(|rules|, i requires 0 <= i < |rules| => rules[i].componentId)
  }

  /** A flag is a piece of "ims", or "u". */
  predicate FlagOk(flag: string) {
    flag in {"", "i", "m", "s", "im", "ms", "ims", "u"}
  }

  function Prefix(flags: seq<string>): string
    decreases |flags|
  {
    if flags == [] then ""
    else
      var last := flags[|flags| - 1];
      Prefix(flags[..|flags| - 1]) + (if last == "u" then "" else last)
  }

  function PatternOf(r: Rule): string {
    var prefix := Prefix(r.flags);
    if prefix == "" then r.pattern else "(?" + prefix + ")" + r.pattern
  }

  predicate TransformOk(transform: string) {
    transform in {"urlDecode", "base64Decode", "hexDecode", "lowercase"}
  }

  predicate RuleFits(c: Compiler, r: Rule) {
    && (forall i :: 0 <= i < |r.flags| ==> FlagOk(r.flags[i]))
    && c.compiles(PatternOf(r))
    && (forall i :: 0 <= i < |r.transformations| ==> TransformOk(r.transformations[i]))
  }

  /** The compiled rules: under each component the last rule for it. */
  function Compiled(rules: seq<Rule>): (compiled: map<string, CompiledRule>)
    ensures forall id :: id in compiled <==> id in Components(rules)
    decreases |rules|
  {
    if rules == [] then map[]
    else
      var r := rules[|rules| - 1];
      assert Components(rules) == Components(rules[..|rules| - 1]) + [r.componentId];
      Compiled(rules[..|rules| - 1])[r.componentId := CompiledRule(r.ruleId, r.carrier, r.name, PatternOf(r),
                                                                   r.transformations)]
  }

  /** The code tells a component that already has a rule by the identifier of that rule, so only a rule without one can
      be followed by another rule for its component. */
  predicate NoNamedDuplicate(rules: seq<Rule>) {
    forall i, j :: 0 <= i < j < |rules| && rules[i].componentId == rules[j].componentId ==> rules[i].ruleId == ""
  }

  /** A carrier is bound for the rule, and it compiles. */
  predicate RuleAdmitted(c: Compiler, r: Rule, bindings: seq<CarrierBinding>) {
    RuleKey(c, r) in CarrierKeys(c, bindings) && RuleFits(c, r)
  }

  ghost predicate RulesFitBindings(c: Compiler, rules: seq<Rule>, bindings: seq<CarrierBinding>) {
    && |rules| > 0 && |rules| == |bindings|
    && Distinct(CarrierKeys(c, bindings))
    && (forall i :: 0 <= i < |rules| ==> RuleAdmitted(c, rules[i], bindings))
    && NoNamedDuplicate(rules)
  }

  // ----- the alternatives ----------------------------------------------------------------------

  /** strings.Join with a NUL between. */
  function Join(ids: seq<string>): string
    decreases |ids|
  {
    if ids == [] then "" else if |ids| == 1 then ids[0] else ids[0] + NUL + Join(ids[1..])
  }

  /** The route each test input with a valid route is bound to; a repeated identifier would keep the last one. */
  function InputRoutes(inputs: seq<TestInput>): map<string, RouteBinding>
    decreases |inputs|
  {
    if inputs == [] then map[]
    else
      var last := inputs[|inputs| - 1];
      var routes := InputRoutes(inputs[..|inputs| - 1]);
      match InputRoute(last.input)
      case Some(route) => routes[last.inputId := route]
      case None => routes
  }

  /** The inputs of a component that go over a route, in the component's order. */
  function InputsOnRoute(refs: seq<TypedRef>, routes: map<string, RouteBinding>, route: RouteBinding): seq<TypedRef>
    decreases |refs|
  {
    if refs == [] then []
    else
      var last := refs[|refs| - 1];
      InputsOnRoute(refs[..|refs| - 1], routes, route)
      + (if last.id in routes && routes[last.id] == route then [last] else [])
  }

  function ComponentInputs(components: map<string, Component>, id: string): seq<TypedRef> {
    if id in components then components[id].inputRefs else []
  }

  /** The bindings of an alternative: a binding without references may be repeated, the last one then counts. */
  predicate NoBoundDuplicate(bindings: seq<ComponentBinding>) {
    && (forall i :: 0 <= i < |bindings| ==> bindings[i].componentId != "")
    && forall i, j :: 0 <= i < j < |bindings| && bindings[i].componentId == bindings[j].componentId ==>
        bindings[i].inputRefs.None?
  }

  function BindingsOf(bindings: seq<ComponentBinding>): map<string, Option<seq<TypedRef>>>
    decreases |bindings|
  {
    if bindings == [] then map[]
    else
      var last := bindings[|bindings| - 1];
      BindingsOf(bindings[..|bindings| - 1])[last.componentId := last.inputRefs]
  }

  /** One component of an alternative is bound to exactly its authenticated inputs on the alternative's route, and there
      is at least one. */
  predicate BoundExactly(bindings: map<string, Option<seq<TypedRef>>>, components: map<string, Component>,
                         routes: map<string, RouteBinding>, route: RouteBinding, id: string) {
    var expected := InputsOnRoute(ComponentInputs(components, id), routes, route);
    expected != [] && id in bindings && bindings[id] == Some(expected)
  }

  ghost predicate AlternativeFits(coverage: seq<seq<string>>, components: map<string, Component>,
                                  routes: map<string, RouteBinding>, a: RouteAlternative) {
    && ValidRoute(a.route)
    && (exists i :: 0 <= i < |coverage| && Join(coverage[i]) == Join(a.componentIds))
    && NoBoundDuplicate(a.bindings) && |BindingsOf(a.bindings)| == |a.componentIds|
    && forall i :: 0 <= i < |a.componentIds| ==>
        BoundExactly(BindingsOf(a.bindings), components, routes, a.route, a.componentIds[i])
  }

  function AlternativeKey(a: RouteAlternative): string { a.alternativeId }

  ghost predicate RouteBound(m: RuleDocument, s: Semantics) {
    && |m.routeAlternatives| > 0
    && (forall i :: 0 <= i < |s.components| ==> s.components[i].componentId != "")
    && Identified(Ids(m.routeAlternatives, AlternativeKey))
    && (forall i :: 0 <= i < |m.routeAlternatives| ==>
          AlternativeFits(m.coverage, Index(s.components, ComponentKey), InputRoutes(s.testInputs),
                          m.routeAlternatives[i]))
    && EveryCoverageRepresented(m)
  }

  ghost predicate EveryCoverageRepresented(m: RuleDocument) {
    forall i :: 0 <= i < |m.coverage| ==> RepresentedBySome(m, m.coverage[i])
  }

  ghost predicate RepresentedBySome(m: RuleDocument, ids: seq<string>) {
    exists k :: 0 <= k < |m.routeAlternatives| && Join(m.routeAlternatives[k].componentIds) == Join(ids)
  }

  ghost predicate PlacementFits(m: RuleDocument, s: Semantics) {
    m.placementMode == "" || (m.placementMode == "route-bound-v1" && RouteBound(m, s))
  }

  function AlternativesOf(m: RuleDocument): (alternatives: seq<Alternative>)
    ensures |m.rules| > 0 ==> |alternatives| > 0
  {
    if m.placementMode == "route-bound-v1" && |m.routeAlternatives| > 0 then
      seq(|m.routeAlternatives|, i requires 0 <= i < |m.routeAlternatives| =>
        Alternative(m.routeAlternatives[i].componentIds, Some(m.routeAlternatives[i].route)))
    else if m.placementMode == "" && |m.coverage| > 0 then
      seq(|m.coverage|, i requires 0 <= i < |m.coverage| => Alternative(m.coverage[i], None))
    else
      seq(|m.rules|, i requires 0 <= i < |m.rules| => Alternative([m.rules[i].componentId], None))
  }

  /** What the alternatives are: the routes' ones, or the coverage lists for every route, or one for each rule. */
  predicate Alternatives(m: RuleDocument, alternatives: seq<Alternative>) {
    if m.placementMode == "route-bound-v1" then
      && |alternatives| == |m.routeAlternatives|
      && forall i :: 0 <= i < |alternatives| ==>
           && alternatives[i].componentIds == m.routeAlternatives[i].componentIds
           && alternatives[i].route == Some(m.routeAlternatives[i].route)
    else if |m.coverage| > 0 then
      && |alternatives| == |m.coverage|
      && forall i :: 0 <= i < |alternatives| ==>
           alternatives[i].componentIds == m.coverage[i] && alternatives[i].route.None?
    else
      && |alternatives| == |m.rules|
      && forall i :: 0 <= i < |alternatives| ==>
           alternatives[i].componentIds == [m.rules[i].componentId] && alternatives[i].route.None?
  }

  /** Every alternative is non-empty and names only compiled rules, which have identifiers. */
  predicate Runnable(w: PreparedWaf) {
    forall i :: 0 <= i < |w.alternatives| ==> NamesRules(w.rules, w.alternatives[i].componentIds)
  }

  predicate NamesRules(rules: map<string, CompiledRule>, ids: seq<string>) {
    |ids| > 0 && forall k :: 0 <= k < |ids| ==> ids[k] in rules && rules[ids[k]].ruleId != ""
  }

  function WafOf(m: RuleDocument): PreparedWaf {
    PreparedWaf(Compiled(m.rules), AlternativesOf(m))
  }

  /** The two documents of the application unit: exactly one of each kind, and nothing else. */
  predicate AreDocuments(artifacts: seq<UnitArtifact>, m: RuleDocument, c: CarrierDocument) {
    || artifacts == [MatchRule(Some(m)), ConfigurationFragment(Some(c))]
    || artifacts == [ConfigurationFragment(Some(c)), MatchRule(Some(m))]
  }

  ghost predicate Preparable(c: Compiler, s: Semantics, m: RuleDocument, carriers: CarrierDocument) {
    && m.action == "block" && m.ruleSetId != "" && m.ruleSetId == carriers.ruleSetId
    && RulesFitBindings(c, m.rules, carriers.bindings)
    && PlacementFits(m, s)
    && Runnable(WafOf(m))
  }

  // ----- preparing -----------------------------------------------------------------------------

  /** The loop over the artifacts. */
  method FindDocuments(artifacts: seq<UnitArtifact>) returns (found: Option<(RuleDocument, CarrierDocument)>)
    ensures found.Some? ==> AreDocuments(artifacts, found.value.0, found.value.1)
    ensures found.None? ==> forall m, c :: !AreDocuments(artifacts, m, c)
  {
    var main: Option<RuleDocument>, carriers: Option<CarrierDocument> := None, None;
    for i := 0 to |artifacts|
      invariant i == (if main.Some? then 1 else 0) + (if carriers.Some? then 1 else 0)
      invariant main.Some? ==> MatchRule(main) in artifacts[..i]
      invariant carriers.Some? ==> ConfigurationFragment(carriers) in artifacts[..i]
    {
      match artifacts[i]
      case MatchRule(document) =>
        if main.Some? || document.None? {
          return None;
        }
        main := document;
      case ConfigurationFragment(document) =>
        if carriers.Some? || document.None? {
          return None;
        }
        carriers := document;
      case OtherKind =>
        return None;
    }
    if main.None? || carriers.None? {
      return None;
    }
    assert artifacts[..|artifacts|] == artifacts;
    return Some((main.value, carriers.value));
  }

  /** The loop over the carrier bindings. */
  method CollectKeys(c: Compiler, bindings: seq<CarrierBinding>) returns (keys: Option<set<string>>)
    ensures keys.Some? <==> Distinct(CarrierKeys(c, bindings))
    ensures keys.Some? ==> keys.value == set k | k in CarrierKeys(c, bindings)
  {
    ghost var all := CarrierKeys(c, bindings);
    var seen: set<string> := {};
    for i := 0 to |bindings|
      invariant Distinct(all[..i]) && seen == set k | k in all[..i]
    {
      var key := CarrierKey(c, bindings[i]);
      assert all[i] == key && all[..i + 1] == all[..i] + [key];
      if key in seen {
        return None;
      }
      seen := seen + {key};
    }
    assert all[..|bindings|] == all;
    return Some(seen);
  }

  /** The flags, the pattern and the transformations of one rule. */
  method CompileRule(c: Compiler, r: Rule) returns (compiled: Option<CompiledRule>)
    ensures compiled.Some? <==> RuleFits(c, r)
    ensures compiled.Some? ==>
            compiled.value == CompiledRule(r.ruleId, r.carrier, r.name, PatternOf(r), r.transformations)
  {
    var prefix := "";
    for i := 0 to |r.flags|
      invariant prefix == Prefix(r.flags[..i]) && forall k :: 0 <= k < i ==> FlagOk(r.flags[k])
    {
      assert r.flags[..i + 1][..i] == r.flags[..i];
      if !FlagOk(r.flags[i]) {
        return None;
      }
      if r.flags[i] != "u" {
        prefix := prefix + r.flags[i];
      }
    }
    assert r.flags[..|r.flags|] == r.flags;
    var pattern := r.pattern;
    if prefix != "" {
      pattern := "(?" + prefix + ")" + pattern;
    }
    if !c.compiles(pattern) {
      return None;
    }
    for i := 0 to |r.transformations|
      invariant forall k :: 0 <= k < i ==> TransformOk(r.transformations[k])
    {
      if !TransformOk(r.transformations[i]) {
        return None;
      }
    }
    return Some(CompiledRule(r.ruleId, r.carrier, r.name, pattern, r.transformations));
  }

  /** What the compiled rules say about the last rule for a component. */
  lemma {:induction false} CompiledIsLast(rules: seq<Rule>, id: string) returns (i: nat)
    requires id in Compiled(rules)
    ensures i < |rules| && rules[i].componentId == id && Compiled(rules)[id].ruleId == rules[i].ruleId
    ensures Compiled(rules)[id].carrier == rules[i].carrier && Compiled(rules)[id].name == rules[i].name
    ensures Compiled(rules)[id].pattern == PatternOf(rules[i])
    ensures Compiled(rules)[id].transformations == rules[i].transformations
    ensures forall k :: i < k < |rules| ==> rules[k].componentId != id
    decreases |rules|
  {
    if rules[|rules| - 1].componentId == id {
      i := |rules| - 1;
    } else {
      i := CompiledIsLast(rules[..|rules| - 1], id);
    }
  }

  method AdmitRule(c: Compiler, r: Rule, ghost bindings: seq<CarrierBinding>, keys: set<string>)
    returns (compiled: Option<CompiledRule>)
    requires keys == set k | k in CarrierKeys(c, bindings)
    ensures compiled.Some? <==> RuleAdmitted(c, r, bindings)
    ensures compiled.Some? ==>
            compiled.value == CompiledRule(r.ruleId, r.carrier, r.name, PatternOf(r), r.transformations)
  {
    if RuleKey(c, r) !in keys {
      return None;
    }
    compiled := CompileRule(c, r);
  }

  lemma {:induction false} CompiledStarts(rules: seq<Rule>)
    ensures Compiled(rules[..0]) == map[] && NoNamedDuplicate(rules[..0])
  {
  }

  lemma {:induction false} CompiledGrows(rules: seq<Rule>, i: nat)
    requires i < |rules|
    ensures var r := rules[i];
            Compiled(rules[..i + 1])
            == Compiled(rules[..i])[r.componentId := CompiledRule(r.ruleId, r.carrier, r.name, PatternOf(r),
                                                                  r.transformations)]
  {
    assert rules[..i + 1][..i] == rules[..i];
  }

  /** The loop over the rules. */
  method CompileRules(c: Compiler, rules: seq<Rule>, bindings: seq<CarrierBinding>, keys: set<string>)
    returns (compiled: Option<map<string, CompiledRule>>)
    requires |rules| > 0 && |rules| == |bindings|
    requires Distinct(CarrierKeys(c, bindings)) && keys == set k | k in CarrierKeys(c, bindings)
    ensures compiled.Some? <==> RulesFitBindings(c, rules, bindings)
    ensures compiled.Some? ==> compiled.value == Compiled(rules)
  {
    hide RuleAdmitted, CarrierKeys, Distinct, NoNamedDuplicate, Compiled;
    var built: map<string, CompiledRule> := map[];
    CompiledStarts(rules);
    for i := 0 to |rules|
      invariant built == Compiled(rules[..i]) && NoNamedDuplicate(rules[..i])
      invariant forall k :: 0 <= k < i ==> RuleAdmitted(c, rules[k], bindings)
    {
      var r := rules[i];
      CompiledGrows(rules, i);
      DuplicateSeen(rules, i);
      if r.componentId in built && built[r.componentId].ruleId != "" {
        return None;
      }
      var one := AdmitRule(c, r, bindings, keys);
      if one.None? {
        return None;
      }
      built := built[r.componentId := one.value];
    }
    assert rules[..|rules|] == rules;
    return Some(built);
  }

  /** The duplicate guard of the loop over the rules, against the rules seen so far. */
  lemma {:induction false} DuplicateSeen(rules: seq<Rule>, i: nat)
    requires i < |rules| && NoNamedDuplicate(rules[..i])
    ensures var built := Compiled(rules[..i]);
            var id := rules[i].componentId;
            && (id in built && built[id].ruleId != "" ==> !NoNamedDuplicate(rules))
            && (!(id in built && built[id].ruleId != "") ==> NoNamedDuplicate(rules[..i + 1]))
  {
    hide Compiled, NoNamedDuplicate;
    if rules[i].componentId in Compiled(rules[..i]) {
      var k := CompiledIsLast(rules[..i], rules[i].componentId);
      assert rules[k] == rules[..i][k];
      if rules[k].ruleId == "" {
        UnnamedSoFar(rules, i, k);
      } else {
        NamedDuplicate(rules, k, i);
      }
    } else {
      NewComponent(rules, i);
    }
  }

  lemma {:induction false} NamedDuplicate(rules: seq<Rule>, k: nat, i: nat)
    requires k < i < |rules| && rules[k].componentId == rules[i].componentId && rules[k].ruleId != ""
    ensures !NoNamedDuplicate(rules)
  {
  }

  lemma {:induction false} NewComponent(rules: seq<Rule>, i: nat)
    requires i < |rules| && NoNamedDuplicate(rules[..i]) && rules[i].componentId !in Components(rules[..i])
    ensures NoNamedDuplicate(rules[..i + 1])
  {
    forall n | 0 <= n < i ensures rules[n].componentId != rules[i].componentId {
      assert Components(rules[..i])[n] == rules[n].componentId;
    }
    assert forall n :: 0 <= n < i ==> rules[..i + 1][n] == rules[..i][n];
  }

  lemma {:induction false} UnnamedSoFar(rules: seq<Rule>, i: nat, k: nat)
    requires k < i < |rules| && NoNamedDuplicate(rules[..i])
    requires rules[k].componentId == rules[i].componentId && rules[k].ruleId == ""
    requires forall n :: k < n < i ==> rules[n].componentId != rules[i].componentId
    ensures NoNamedDuplicate(rules[..i + 1])
  {
    forall n | 0 <= n < i && rules[n].componentId == rules[i].componentId ensures rules[n].ruleId == "" {
      if n < k {
        assert rules[..i][n].componentId == rules[..i][k].componentId;
      }
    }
    assert forall n :: 0 <= n < i ==> rules[..i + 1][n] == rules[..i][n];
  }

  // ----- checking the route-bound placement ----------------------------------------------------

  function JoinedSet(lists: seq<seq<string>>): set<string> {
    set i | 0 <= i < |lists| :: Join(lists[i])
  }

  method CollectRoutes(inputs: seq<TestInput>) returns (routes: map<string, RouteBinding>)
    ensures routes == InputRoutes(inputs)
  {
    routes := map[];
    for i := 0 to |inputs|
      invariant routes == InputRoutes(inputs[..i])
    {
      assert inputs[..i + 1][..i] == inputs[..i];
      var route := InputRoute(inputs[i].input);
      if route.Some? {
        routes := routes[inputs[i].inputId := route.value];
      }
    }
    assert inputs[..|inputs|] == inputs;
  }

  method CollectComponents(components: seq<Component>) returns (index: Option<map<string, Component>>)
    ensures index.Some? <==> forall i :: 0 <= i < |components| ==> components[i].componentId != ""
    ensures index.Some? ==> index.value == Index(components, ComponentKey)
  {
    var built: map<string, Component> := map[];
    for i := 0 to |components|
      invariant forall k :: 0 <= k < i ==> components[k].componentId != ""
      invariant built == Index(components[..i], ComponentKey)
    {
      assert components[..i + 1][..i] == components[..i];
      if components[i].componentId == "" {
        return None;
      }
      built := built[components[i].componentId := components[i]];
    }
    assert components[..|components|] == components;
    return Some(built);
  }

  lemma {:induction false} BindingIsLast(bindings: seq<ComponentBinding>, id: string) returns (i: nat)
    requires id in BindingsOf(bindings)
    ensures i < |bindings| && bindings[i].componentId == id && BindingsOf(bindings)[id] == bindings[i].inputRefs
    ensures forall k :: i < k < |bindings| ==> bindings[k].componentId != id
    decreases |bindings|
  {
    if bindings[|bindings| - 1].componentId == id {
      i := |bindings| - 1;
    } else {
      i := BindingIsLast(bindings[..|bindings| - 1], id);
    }
  }

  lemma {:induction false} BindingsHold(bindings: seq<ComponentBinding>)
    ensures forall i :: 0 <= i < |bindings| ==> bindings[i].componentId in BindingsOf(bindings)
    decreases |bindings|
  {
    if bindings != [] {
      BindingsHold(bindings[..|bindings| - 1]);
      assert forall i :: 0 <= i < |bindings| - 1 ==> bindings[..|bindings| - 1][i] == bindings[i];
    }
  }

  lemma {:induction false} BoundSeen(bindings: seq<ComponentBinding>, i: nat)
    requires i < |bindings| && NoBoundDuplicate(bindings[..i]) && bindings[i].componentId != ""
    ensures var built := BindingsOf(bindings[..i]);
            var id := bindings[i].componentId;
            && (id in built && built[id].Some? ==> !NoBoundDuplicate(bindings))
            && (!(id in built && built[id].Some?) ==> NoBoundDuplicate(bindings[..i + 1]))
  {
    var built := BindingsOf(bindings[..i]);
    var id := bindings[i].componentId;
    hide BindingsOf;
    if id in built {
      var k := BindingIsLast(bindings[..i], id);
      assert bindings[k] == bindings[..i][k];
      if built[id].None? {
        UnboundSoFar(bindings, i, k);
      }
    } else {
      BindingsHold(bindings[..i]);
      forall n | 0 <= n < i ensures bindings[n].componentId != id {
        assert bindings[..i][n] == bindings[n];
      }
      assert forall n :: 0 <= n < i ==> bindings[..i + 1][n] == bindings[..i][n];
    }
  }

  lemma {:induction false} UnboundSoFar(bindings: seq<ComponentBinding>, i: nat, k: nat)
    requires k < i < |bindings| && NoBoundDuplicate(bindings[..i]) && bindings[i].componentId != ""
    requires bindings[k].componentId == bindings[i].componentId && bindings[k].inputRefs.None?
    requires forall n :: k < n < i ==> bindings[n].componentId != bindings[i].componentId
    ensures NoBoundDuplicate(bindings[..i + 1])
  {
    forall n | 0 <= n < i && bindings[n].componentId == bindings[i].componentId ensures bindings[n].inputRefs.None? {
      if n < k {
        assert bindings[..i][n].componentId == bindings[..i][k].componentId;
      }
    }
    assert forall n :: 0 <= n < i ==> bindings[..i + 1][n] == bindings[..i][n];
  }

  lemma {:induction false} BindingsGrow(bindings: seq<ComponentBinding>, i: nat)
    requires i < |bindings|
    ensures BindingsOf(bindings[..i + 1]) == BindingsOf(bindings[..i])[bindings[i].componentId := bindings[i].inputRefs]
    ensures bindings[i].componentId == "" ==> !NoBoundDuplicate(bindings)
  {
    assert bindings[..i + 1][..i] == bindings[..i];
  }

  lemma {:induction false} BindingsStart(bindings: seq<ComponentBinding>)
    ensures BindingsOf(bindings[..0]) == map[] && NoBoundDuplicate(bindings[..0])
  {
  }

  /** The loop over the component bindings of an alternative. */
  method CollectBindings(bindings: seq<ComponentBinding>) returns (bound: Option<map<string, Option<seq<TypedRef>>>>)
    ensures bound.Some? <==> NoBoundDuplicate(bindings)
    ensures bound.Some? ==> bound.value == BindingsOf(bindings)
  {
    hide BindingsOf, NoBoundDuplicate;
    var built: map<string, Option<seq<TypedRef>>> := map[];
    BindingsStart(bindings);
    for i := 0 to |bindings|
      invariant built == BindingsOf(bindings[..i]) && NoBoundDuplicate(bindings[..i])
    {
      BindingsGrow(bindings, i);
      var id := bindings[i].componentId;
      if id == "" {
        return None;
      }
      BoundSeen(bindings, i);
      if id in built && built[id].Some? {
        return None;
      }
      built := built[id := bindings[i].inputRefs];
    }
    assert bindings[..|bindings|] == bindings;
    return Some(built);
  }

  method CollectInputs(refs: seq<TypedRef>, routes: map<string, RouteBinding>, route: RouteBinding)
    returns (expected: seq<TypedRef>)
    ensures expected == InputsOnRoute(refs, routes, route)
  {
    expected := [];
    for i := 0 to |refs|
      invariant expected == InputsOnRoute(refs[..i], routes, route)
    {
      assert refs[..i + 1][..i] == refs[..i];
      if refs[i].id in routes && routes[refs[i].id] == route {
        expected := expected + [refs[i]];
      }
    }
    assert refs[..|refs|] == refs;
  }

  /** The body of the loop over the route alternatives, but for their identifiers. */
  method CheckAlternative(coverage: seq<seq<string>>, keys: set<string>, components: map<string, Component>,
                          routes: map<string, RouteBinding>, a: RouteAlternative) returns (ok: bool)
    requires keys == JoinedSet(coverage)
    ensures ok <==> AlternativeFits(coverage, components, routes, a)
  {
    hide NoBoundDuplicate, BindingsOf, InputsOnRoute, ValidRoute, Join;
    if Join(a.componentIds) !in keys || !ValidRoute(a.route) {
      return false;
    }
    var bound := CollectBindings(a.bindings);
    if bound.None? || |bound.value| != |a.componentIds| {
      return false;
    }
    for i := 0 to |a.componentIds|
      invariant forall k :: 0 <= k < i ==> BoundExactly(bound.value, components, routes, a.route, a.componentIds[k])
    {
      var id := a.componentIds[i];
      var expected := CollectInputs(ComponentInputs(components, id), routes, a.route);
      var given := if id in bound.value then bound.value[id].GetOr([]) else [];
      if given != expected || |expected| == 0 {
        return false;
      }
    }
    ok := true;
  }

  /** The route-bound branch of prepareSharedWAF. */
  method CheckRouteBound(m: RuleDocument, s: Semantics) returns (ok: bool)
    ensures ok <==> RouteBound(m, s)
  {
    hide AlternativeFits, InputRoutes, Identified, Join, EveryCoverageRepresented;
    if |m.routeAlternatives| == 0 {
      return false;
    }
    var coverage := JoinedSet(m.coverage);
    var routes := CollectRoutes(s.testInputs);
    var components := CollectComponents(s.components);
    if components.None? {
      return false;
    }
    var ids := BuildIndex(m.routeAlternatives, AlternativeKey);
    if ids.None? {
      return false;
    }
    var represented: set<string> := {};
    for i := 0 to |m.routeAlternatives|
      invariant forall k :: 0 <= k < i ==> AlternativeFits(m.coverage, components.value, routes, m.routeAlternatives[k])
      invariant represented == set k | 0 <= k < i :: Join(m.routeAlternatives[k].componentIds)
      invariant represented <= coverage
    {
      var alternative := m.routeAlternatives[i];
      var fits := CheckAlternative(m.coverage, coverage, components.value, routes, alternative);
      if !fits {
        return false;
      }
      FitsCovered(m.coverage, components.value, routes, alternative);
      represented := represented + {Join(alternative.componentIds)};
    }
    SubsetSize(represented, coverage);
    CoveredIffSame(m, represented);
    ok := |represented| == |coverage|;
  }

  lemma {:induction false} CoveredIffSame(m: RuleDocument, represented: set<string>)
    requires represented == set k | 0 <= k < |m.routeAlternatives| :: Join(m.routeAlternatives[k].componentIds)
    requires represented <= JoinedSet(m.coverage)
    ensures represented == JoinedSet(m.coverage) <==> EveryCoverageRepresented(m)
  {
    forall i | 0 <= i < |m.coverage|
      ensures RepresentedBySome(m, m.coverage[i]) <==> Join(m.coverage[i]) in represented {
    }
    if EveryCoverageRepresented(m) {
      assert JoinedSet(m.coverage) <= represented;
    }
    if represented == JoinedSet(m.coverage) {
      assert forall i :: 0 <= i < |m.coverage| ==> Join(m.coverage[i]) in represented;
    }
  }

  lemma {:induction false} FitsCovered(coverage: seq<seq<string>>, components: map<string, Component>,
                                       routes: map<string, RouteBinding>, a: RouteAlternative)
    requires AlternativeFits(coverage, components, routes, a)
    ensures Join(a.componentIds) in JoinedSet(coverage)
  {
  }

  /** The last loop: every alternative names rules. */
  method CheckRunnable(w: PreparedWaf) returns (ok: bool)
    ensures ok <==> Runnable(w)
  {
    for i := 0 to |w.alternatives|
      invariant forall k :: 0 <= k < i ==> NamesRules(w.rules, w.alternatives[k].componentIds)
    {
      var ids := w.alternatives[i].componentIds;
      if |ids| == 0 {
        return false;
      }
      for k := 0 to |ids|
        invariant forall n :: 0 <= n < k ==> ids[n] in w.rules && w.rules[ids[n]].ruleId != ""
      {
        if ids[k] !in w.rules || w.rules[ids[k]].ruleId == "" {
          return false;
        }
      }
    }
    ok := true;
  }

  lemma {:induction false} AlternativesStand(m: RuleDocument, s: Semantics)
    requires PlacementFits(m, s)
    ensures Alternatives(m, AlternativesOf(m))
  {
    hide AlternativeFits, EveryCoverageRepresented;
    assert "" != "route-bound-v1";
  }

  /** prepareSharedWAF: what it accepts, and what it prepares. */
  method Prepare(c: Compiler, s: Semantics, artifacts: seq<UnitArtifact>, unitSize: nat, contentCount: nat)
    returns (w: Option<PreparedWaf>)
    ensures w.Some? <==> && unitSize == contentCount
                         && exists m, carriers :: AreDocuments(artifacts, m, carriers) && Preparable(c, s, m, carriers)
    ensures forall m, carriers :: w.Some? && AreDocuments(artifacts, m, carriers) ==>
              w.value == WafOf(m) && Alternatives(m, w.value.alternatives)
  {
    hide RulesFitBindings, PlacementFits, Runnable, Alternatives, AlternativesOf;
    if unitSize != contentCount {
      return None;
    }
    var found := FindDocuments(artifacts);
    if found.None? {
      return None;
    }
    var m, carriers := found.value.0, found.value.1;
    if m.action != "block" || m.ruleSetId == "" || m.ruleSetId != carriers.ruleSetId {
      return None;
    }
    var rules := PrepareRules(c, m, carriers);
    if rules.None? {
      return None;
    }
    var placed := CheckPlacement(m, s);
    if !placed {
      return None;
    }
    var prepared := PreparedWaf(rules.value, AlternativesOf(m));
    AlternativesStand(m, s);
    var runnable := CheckRunnable(prepared);
    if !runnable {
      return None;
    }
    return Some(prepared);
  }

  method PrepareRules(c: Compiler, m: RuleDocument, carriers: CarrierDocument)
    returns (rules: Option<map<string, CompiledRule>>)
    ensures rules.Some? <==> RulesFitBindings(c, m.rules, carriers.bindings)
    ensures rules.Some? ==> rules.value == Compiled(m.rules)
  {
    if |m.rules| == 0 || |m.rules| != |carriers.bindings| {
      return None;
    }
    var keys := CollectKeys(c, carriers.bindings);
    if keys.None? {
      return None;
    }
    rules := CompileRules(c, m.rules, carriers.bindings, keys.value);
  }

  method CheckPlacement(m: RuleDocument, s: Semantics) returns (ok: bool)
    ensures ok <==> PlacementFits(m, s)
  {
    if m.placementMode == "route-bound-v1" {
      ok := CheckRouteBound(m, s);
    } else {
      ok := m.placementMode == "";
    }
  }

  // ----- what preparation gives ----------------------------------------------------------------

  /** In a prepared WAF every alternative is non-empty and names only compiled rules with identifiers, and there is at
      least one alternative. */
  lemma {:induction false} PreparedRunsOnItsRules(c: Compiler, s: Semantics, m: RuleDocument,
                                                  carriers: CarrierDocument, i: nat, k: nat)
    requires Preparable(c, s, m, carriers) && i < |WafOf(m).alternatives| && k < |WafOf(m).alternatives[i].componentIds|
    ensures |WafOf(m).alternatives| > 0 && |WafOf(m).alternatives[i].componentIds| > 0
    ensures var id := WafOf(m).alternatives[i].componentIds[k];
            && id in WafOf(m).rules && WafOf(m).rules[id].ruleId != ""
            && exists r :: r in m.rules && r.componentId == id && r.ruleId == WafOf(m).rules[id].ruleId
  {
    hide RulesFitBindings, PlacementFits;
    var w := WafOf(m);
    assert NamesRules(w.rules, w.alternatives[i].componentIds);
    var n := CompiledIsLast(m.rules, w.alternatives[i].componentIds[k]);
    assert m.rules[n] in m.rules;
  }

  function CompiledKey(c: Compiler, rules: map<string, CompiledRule>, id: string): string
    requires id in rules
  {
    JoinedKey(c, id, rules[id].carrier, rules[id].name)
  }

  /** The compiled rules and the carrier bindings correspond one to one. */
  ghost predicate InBijection(c: Compiler, rules: map<string, CompiledRule>, keys: seq<string>) {
    && |rules| == |keys|
    && (forall id :: id in rules ==> CompiledKey(c, rules, id) in keys)
    && CompiledKeysApart(c, rules)
  }

  lemma {:induction false} CompiledSize(rules: seq<Rule>)
    ensures |Compiled(rules)| == |rules| <==> Distinct(Components(rules))
  {
    var ids := Components(rules);
    var named := set x | x in ids;
    assert Compiled(rules).Keys == named;
    if Distinct(ids) {
      DistinctSize(ids);
    }
    if |Compiled(rules)| == |rules| {
      forall i, j | 0 <= i < j < |ids| ensures ids[i] != ids[j] {
        if ids[i] == ids[j] {
          SizeWithRepeat(ids, i, j);
        }
      }
    }
  }

  lemma {:induction false} AtMostAsMany(ids: seq<string>)
    ensures |set x | x in ids| <= |ids|
    decreases |ids|
  {
    if ids != [] {
      var init, last := ids[..|ids| - 1], ids[|ids| - 1];
      AtMostAsMany(init);
      assert (set x | x in ids) == (set x | x in init) + {last};
    }
  }

  lemma {:induction false} SizeWithRepeat(ids: seq<string>, i: nat, j: nat)
    requires i < j < |ids| && ids[i] == ids[j]
    ensures |set x | x in ids| < |ids|
  {
    var fewer := ids[..j] + ids[j + 1..];
    AtMostAsMany(fewer);
    forall x ensures x in ids <==> x in fewer {
      assert ids == ids[..j] + [ids[j]] + ids[j + 1..];
      assert ids[j] == ids[..j][i];
    }
    assert (set x | x in ids) == (set x | x in fewer);
  }

  /** Keys of different components differ when no component holds a NUL. */
  lemma {:induction false} KeyStartsWithComponent(c: Compiler, a: string, carrierA: string, nameA: string,
                                                  b: string, carrierB: string, nameB: string)
    requires NUL[0] !in a && NUL[0] !in b && JoinedKey(c, a, carrierA, nameA) == JoinedKey(c, b, carrierB, nameB)
    ensures a == b
  {
    var restA, restB := carrierA + NUL + c.lower(nameA), carrierB + NUL + c.lower(nameB);
    assert JoinedKey(c, a, carrierA, nameA) == a + NUL + restA && JoinedKey(c, b, carrierB, nameB) == b + NUL + restB;
    UpToNul(a, restA, b, restB);
  }

  lemma {:induction false} UpToNul(a: string, restA: string, b: string, restB: string)
    requires NUL[0] !in a && NUL[0] !in b && a + NUL + restA == b + NUL + restB
    ensures a == b && restA == restB
  {
    var s := a + NUL + restA;
    assert s[|a|] == NUL[0] && s[..|a|] == a && s[|a| + 1..] == restA;
    assert (b + NUL + restB)[|b|] == NUL[0] && s[..|b|] == b && s[|b| + 1..] == restB;
  }

  /** No two rules share a joined key. */
  ghost predicate KeysApart(c: Compiler, rules: seq<Rule>) {
    forall i, j :: 0 <= i < j < |rules| ==> RuleKey(c, rules[i]) != RuleKey(c, rules[j])
  }

  /** Where no two rules share a component, each is compiled under it, with its own key. */
  lemma {:induction false} CompiledUnderOwnKey(c: Compiler, rules: seq<Rule>, i: nat)
    requires i < |rules| && Distinct(Components(rules))
    ensures rules[i].componentId in Compiled(rules)
    ensures CompiledKey(c, Compiled(rules), rules[i].componentId) == RuleKey(c, rules[i])
  {
    assert Components(rules)[i] == rules[i].componentId;
    var n := CompiledIsLast(rules, rules[i].componentId);
    assert Components(rules)[n] == Components(rules)[i];
  }

  /** No two compiled rules share a joined key. */
  ghost predicate CompiledKeysApart(c: Compiler, rules: map<string, CompiledRule>) {
    forall a, b :: a in rules && b in rules && CompiledKey(c, rules, a) == CompiledKey(c, rules, b) ==> a == b
  }

  lemma {:induction false} KeyOfLast(c: Compiler, rules: seq<Rule>, id: string) returns (i: nat)
    requires id in Compiled(rules)
    ensures i < |rules| && rules[i].componentId == id && CompiledKey(c, Compiled(rules), id) == RuleKey(c, rules[i])
  {
    i := CompiledIsLast(rules, id);
  }

  lemma {:induction false} ApartWhenCompiled(c: Compiler, rules: seq<Rule>)
    requires Distinct(Components(rules))
    ensures CompiledKeysApart(c, Compiled(rules)) <==> KeysApart(c, rules)
  {
    hide Compiled, RuleKey, CompiledKey;
    var compiled := Compiled(rules);
    if KeysApart(c, rules) {
      forall a, b | a in compiled && b in compiled && CompiledKey(c, compiled, a) == CompiledKey(c, compiled, b)
        ensures a == b {
        var i := KeyOfLast(c, rules, a);
        var j := KeyOfLast(c, rules, b);
      }
    }
    if CompiledKeysApart(c, compiled) {
      forall i, j | 0 <= i < j < |rules| ensures RuleKey(c, rules[i]) != RuleKey(c, rules[j]) {
        assert Components(rules)[i] != Components(rules)[j];
        CompiledUnderOwnKey(c, rules, i);
        CompiledUnderOwnKey(c, rules, j);
      }
    }
  }

  /** For every accepted document: the compiled rules and the carrier bindings correspond one to one exactly when no two
      rules share a component and no two share a joined key. */
  lemma {:induction false} BijectionExactly(c: Compiler, s: Semantics, m: RuleDocument, carriers: CarrierDocument)
    requires Preparable(c, s, m, carriers)
    ensures InBijection(c, WafOf(m).rules, CarrierKeys(c, carriers.bindings))
       <==> Distinct(Components(m.rules)) && KeysApart(c, m.rules)
  {
    hide RuleFits, PlacementFits, Runnable, Compiled, RuleKey, CompiledKey, Distinct, KeysApart;
    var rules := Compiled(m.rules);
    var keys := CarrierKeys(c, carriers.bindings);
    CompiledSize(m.rules);
    forall id | id in rules ensures CompiledKey(c, rules, id) in keys {
      var n := KeyOfLast(c, m.rules, id);
      assert RuleAdmitted(c, m.rules[n], carriers.bindings);
    }
    if Distinct(Components(m.rules)) {
      ApartWhenCompiled(c, m.rules);
    }
  }

  /** With component identifiers that hold no NUL, the correspondence fails only where a rule without an identifier
      shares its component with a later rule: an empty rule_id blinds the duplicate guard. */
  lemma {:induction false} BijectionUnlessUnnamed(c: Compiler, s: Semantics, m: RuleDocument, carriers: CarrierDocument)
    requires Preparable(c, s, m, carriers)
    requires forall i :: 0 <= i < |m.rules| ==> NUL[0] !in m.rules[i].componentId
    ensures InBijection(c, WafOf(m).rules, CarrierKeys(c, carriers.bindings))
       <==> forall i, j :: 0 <= i < j < |m.rules| && m.rules[i].ruleId == "" ==>
           m.rules[i].componentId != m.rules[j].componentId
  {
    hide RuleFits, PlacementFits, Runnable, JoinedKey, InBijection;
    BijectionExactly(c, s, m, carriers);
    if Distinct(Components(m.rules)) {
      forall i, j | 0 <= i < j < |m.rules|
        ensures m.rules[i].componentId != m.rules[j].componentId && RuleKey(c, m.rules[i]) != RuleKey(c, m.rules[j])
      {
        var a, b := m.rules[i], m.rules[j];
        assert Components(m.rules)[i] != Components(m.rules)[j];
        if RuleKey(c, a) == RuleKey(c, b) {
          KeyStartsWithComponent(c, a.componentId, a.carrier, a.name, b.componentId, b.carrier, b.name);
        }
      }
    }
  }

  lemma {:induction false} NulOnlyAt(a: string, x: string, b: string, y: string)
    requires NUL[0] !in b && a + NUL + x == b + NUL + y
    ensures |a| >= |b| && (|a| == |b| ==> a == b && x == y)
    ensures |a| > |b| ==> |a| - |b| - 1 < |y| && y[|a| - |b| - 1] == NUL[0] && y[|a| - |b|..] == x
  {
    var s := a + NUL + x;
    assert s[|a|] == NUL[0] && s[..|a|] == a && s[|a| + 1..] == x;
    assert (b + NUL + y)[|b|] == NUL[0] && s[..|b|] == b && s[|b| + 1..] == y;
    if |a| > |b| {
      assert y[|a| - |b| - 1] == s[|a|];
    }
  }

  lemma {:induction false} PartsOf(a: string, b: string, n: string, component: string, carrier: string, name: string)
    requires NUL[0] !in component && NUL[0] !in carrier && NUL[0] !in name
    requires a + NUL + b + NUL + n == component + NUL + carrier + NUL + name
    ensures a == component && b == carrier && n == name
  {
    var x, y := b + NUL + n, carrier + NUL + name;
    assert a + NUL + x == a + NUL + b + NUL + n && component + NUL + y == component + NUL + carrier + NUL + name;
    assert x[|b|] == NUL[0];
    NulOnlyAt(a, x, component, y);
    NulOnlyAt(b, n, carrier, name);
  }

  /** A key stands for one (component, carrier, lower-cased name) only as long as none of them holds a NUL. */
  lemma {:induction false} KeyIsUnambiguous(component: string, carrier: string, name: string)
    ensures NUL[0] !in component && NUL[0] !in carrier && NUL[0] !in name
       <==> forall a, b, n :: Key3(a, b, n) == Key3(component, carrier, name) ==>
              a == component && b == carrier && n == name
  {
    var key := Key3(component, carrier, name);
    if NUL[0] in component {
      var i :| 0 <= i < |component| && component[i] == NUL[0];
      var a, rest := component[..i], component[i + 1..];
      assert component == a + NUL + rest;
      assert Key3(a, rest, carrier + NUL + name) == key;
    } else if NUL[0] in carrier {
      var i :| 0 <= i < |carrier| && carrier[i] == NUL[0];
      var b, rest := carrier[..i], carrier[i + 1..];
      assert carrier == b + NUL + rest;
      assert Key3(component, b, rest + NUL + name) == key;
    } else if NUL[0] in name {
      var i :| 0 <= i < |name| && name[i] == NUL[0];
      var n, rest := name[..i], name[i + 1..];
      assert name == n + NUL + rest;
      assert Key3(component, carrier + NUL + n, rest) == key;
    } else {
      forall a, b, n | Key3(a, b, n) == key ensures a == component && b == carrier && n == name {
        PartsOf(a, b, n, component, carrier, name);
      }
    }
  }

  const UNNAMED_RULE := Rule("", "c", "query", "q", "p", [], [])
  const NAMED_RULE := Rule("r", "c", "header", "h", "p", [], [])
  const QUERY_BINDING := CarrierBinding("c", "query", "q")
  const HEADER_BINDING := CarrierBinding("c", "header", "h")
  const KEEP_ALL := Compiler((name: string) => name, (pattern: string) => true)

  lemma {:induction false} LastRuleStays()
    ensures Compiled([UNNAMED_RULE, NAMED_RULE]) == map["c" := CompiledRule("r", "header", "h", "p", [])]
  {
    var rules := [UNNAMED_RULE, NAMED_RULE];
    assert rules[..1] == [UNNAMED_RULE] && rules[..1][..0] == [];
    assert Compiled([]) == map[];
  }

  lemma {:induction false} BothRulesAdmitted()
    ensures RulesFitBindings(KEEP_ALL, [UNNAMED_RULE, NAMED_RULE], [QUERY_BINDING, HEADER_BINDING])
  {
    var bindings := [QUERY_BINDING, HEADER_BINDING];
    var keys := CarrierKeys(KEEP_ALL, bindings);
    assert RuleKey(KEEP_ALL, UNNAMED_RULE) == keys[0] && RuleKey(KEEP_ALL, NAMED_RULE) == keys[1];
    assert keys[0][2] == 'q' && keys[1][2] == 'h';
    assert RuleAdmitted(KEEP_ALL, UNNAMED_RULE, bindings) && RuleAdmitted(KEEP_ALL, NAMED_RULE, bindings);
  }

  /** A document that is accepted although one of its two rules is lost: the first has no identifier, and the second is
      for the same component. */
  lemma {:induction false} UnnamedRuleIsLost(s: Semantics)
    ensures var m := RuleDocument("set", "block", "", [], [], [UNNAMED_RULE, NAMED_RULE]);
            var carriers := CarrierDocument("set", [QUERY_BINDING, HEADER_BINDING]);
            && Preparable(KEEP_ALL, s, m, carriers)
            && !InBijection(KEEP_ALL, WafOf(m).rules, CarrierKeys(KEEP_ALL, carriers.bindings))
            && forall id :: id in WafOf(m).rules ==> WafOf(m).rules[id].carrier != UNNAMED_RULE.carrier
  {
    hide RulesFitBindings, Compiled;
    LastRuleStays();
    BothRulesAdmitted();
    assert "header"[0] != "query"[0];
  }

  const FIRST_RULE := Rule("r1", "a", "b\0query", "n", "p", [], [])
  const SECOND_RULE := Rule("r2", "a\0b", "query", "n", "p", [], [])
  const SHARED_BINDING := CarrierBinding("a", "b\0query", "n")
  const IDLE_BINDING := CarrierBinding("z", "query", "q")

  lemma {:induction false} OneKeyForBoth()
    ensures RuleKey(KEEP_ALL, FIRST_RULE) == CarrierKey(KEEP_ALL, SHARED_BINDING)
    ensures RuleKey(KEEP_ALL, SECOND_RULE) == CarrierKey(KEEP_ALL, SHARED_BINDING)
    ensures CarrierKey(KEEP_ALL, IDLE_BINDING) != CarrierKey(KEEP_ALL, SHARED_BINDING)
  {
    assert "b\0query" == "b" + NUL + "query" && "a\0b" == "a" + NUL + "b";
    assert RuleKey(KEEP_ALL, SECOND_RULE) == "a" + NUL + "b" + NUL + "query" + NUL + "n";
    assert RuleKey(KEEP_ALL, FIRST_RULE) == "a" + NUL + "b" + NUL + "query" + NUL + "n";
    assert CarrierKey(KEEP_ALL, IDLE_BINDING)[0] == 'z' && CarrierKey(KEEP_ALL, SHARED_BINDING)[0] == 'a';
  }

  lemma {:induction false} SharingRulesAdmitted()
    ensures RulesFitBindings(KEEP_ALL, [FIRST_RULE, SECOND_RULE], [SHARED_BINDING, IDLE_BINDING])
    ensures Distinct(Components([FIRST_RULE, SECOND_RULE]))
    ensures !KeysApart(KEEP_ALL, [FIRST_RULE, SECOND_RULE])
  {
    hide RuleKey, CarrierKey;
    OneKeyForBoth();
    var rules, bindings := [FIRST_RULE, SECOND_RULE], [SHARED_BINDING, IDLE_BINDING];
    assert |FIRST_RULE.componentId| != |SECOND_RULE.componentId|;
    assert CarrierKeys(KEEP_ALL, bindings)[0] == CarrierKey(KEEP_ALL, SHARED_BINDING);
    assert RuleAdmitted(KEEP_ALL, FIRST_RULE, bindings) && RuleAdmitted(KEEP_ALL, SECOND_RULE, bindings);
    assert RuleKey(KEEP_ALL, rules[0]) == RuleKey(KEEP_ALL, rules[1]);
  }

  lemma {:induction false} BothComponentsCompiled()
    ensures NamesRules(Compiled([FIRST_RULE, SECOND_RULE]), ["a"])
    ensures NamesRules(Compiled([FIRST_RULE, SECOND_RULE]), ["a\0b"])
  {
    hide Compiled;
    var rules := [FIRST_RULE, SECOND_RULE];
    assert Components(rules)[0] == "a" && Components(rules)[1] == "a\0b";
    var first := CompiledIsLast(rules, "a");
    var second := CompiledIsLast(rules, "a\0b");
  }

  /** A document that is accepted, has only rules with identifiers for different components, and still uses one carrier
      binding twice and another one never: its joined keys hold a NUL too many. */
  lemma {:induction false} NulSharesABinding(s: Semantics)
    ensures var m := RuleDocument("set", "block", "", [], [], [FIRST_RULE, SECOND_RULE]);
            var carriers := CarrierDocument("set", [SHARED_BINDING, IDLE_BINDING]);
            && Preparable(KEEP_ALL, s, m, carriers)
            && (forall r :: r in m.rules ==> r.ruleId != "") && Distinct(Components(m.rules))
            && !InBijection(KEEP_ALL, WafOf(m).rules, CarrierKeys(KEEP_ALL, carriers.bindings))
  {
    hide Compiled, RulesFitBindings, Distinct, KeysApart, InBijection, NamesRules;
    var m := RuleDocument("set", "block", "", [], [], [FIRST_RULE, SECOND_RULE]);
    var carriers := CarrierDocument("set", [SHARED_BINDING, IDLE_BINDING]);
    SharingRulesAdmitted();
    BothComponentsCompiled();
    assert AlternativesOf(m)[0].componentIds == ["a"] && AlternativesOf(m)[1].componentIds == ["a\0b"];
    BijectionExactly(KEEP_ALL, s, m, carriers);
  }

  // ----- the Boolean alternatives of a route-bound WAF -----------------------------------------

  predicate NulFree(ids: seq<string>) {
    forall i :: 0 <= i < |ids| ==> NUL[0] !in ids[i]
  }

  lemma {:induction false} JoinHasNul(ids: seq<string>)
    requires ids != [] && NulFree(ids)
    ensures NUL[0] in Join(ids) <==> |ids| > 1
  {
    if |ids| > 1 {
      assert Join(ids)[|ids[0]|] == NUL[0];
    }
  }

  /** Joining is undone by the NULs, as long as the parts have none. */
  lemma {:induction false} JoinIsInjective(a: seq<string>, b: seq<string>)
    requires a != [] && b != [] && NulFree(a) && NulFree(b) && Join(a) == Join(b)
    ensures a == b
    decreases |a|
  {
    JoinHasNul(a);
    JoinHasNul(b);
    if |a| == 1 {
      assert a == [a[0]] && b == [b[0]];
    } else {
      UpToNul(a[0], Join(a[1..]), b[0], Join(b[1..]));
      JoinIsInjective(a[1..], b[1..]);
      assert a == [a[0]] + a[1..] && b == [b[0]] + b[1..];
    }
  }

  ghost predicate Alternates(w: PreparedWaf, ids: seq<string>) {
    exists i :: 0 <= i < |w.alternatives| && w.alternatives[i].componentIds == ids
  }

  /** The alternatives and the coverage lists always have the same joined keys. */
  lemma {:induction false} SameJoinedKeys(c: Compiler, s: Semantics, m: RuleDocument, carriers: CarrierDocument)
    requires Preparable(c, s, m, carriers) && m.placementMode == "route-bound-v1"
    ensures forall i :: 0 <= i < |m.coverage| ==> JoinedOfSome(AlternativesOf(m), Join(m.coverage[i]))
    ensures forall k :: 0 <= k < |AlternativesOf(m)| ==>
              && Join(AlternativesOf(m)[k].componentIds) != "" && AlternativesOf(m)[k].componentIds != []
              && exists i :: 0 <= i < |m.coverage| && Join(m.coverage[i]) == Join(AlternativesOf(m)[k].componentIds)
  {
    hide RulesFitBindings, Join, Identified, AlternativeFits, InputRoutes;
    var w := WafOf(m);
    var components, routes := Index(s.components, ComponentKey), InputRoutes(s.testInputs);
    forall i | 0 <= i < |m.coverage| ensures JoinedOfSome(AlternativesOf(m), Join(m.coverage[i])) {
      assert RepresentedBySome(m, m.coverage[i]);
      var k :| 0 <= k < |m.routeAlternatives| && Join(m.routeAlternatives[k].componentIds) == Join(m.coverage[i]);
      assert w.alternatives[k].componentIds == m.routeAlternatives[k].componentIds;
    }
    forall k | 0 <= k < |w.alternatives|
      ensures Join(w.alternatives[k].componentIds) != "" && w.alternatives[k].componentIds != []
      ensures exists i :: 0 <= i < |m.coverage| && Join(m.coverage[i]) == Join(w.alternatives[k].componentIds)
    {
      assert NamesRules(w.rules, w.alternatives[k].componentIds);
      NotJoinedToNothing(m.coverage, components, routes, m.routeAlternatives[k]);
      var i := InCoverage(m.coverage, components, routes, m.routeAlternatives[k]);
    }
  }

  ghost predicate JoinedOfSome(alternatives: seq<Alternative>, key: string) {
    exists k :: 0 <= k < |alternatives| && Join(alternatives[k].componentIds) == key
  }

  /** A route-bound document's alternatives are its coverage lists. */
  ghost predicate CoversExactly(m: RuleDocument) {
    forall ids :: Alternates(WafOf(m), ids) <==> ids in m.coverage
  }

  /** Where an alternative and a different coverage list share a joined key, each is found on the other side too. */
  ghost predicate SharedKeysOnBothSides(m: RuleDocument) {
    forall ids, other ::
      Alternates(WafOf(m), ids) && other in m.coverage && Join(ids) == Join(other) && ids != other ==>
        ids in m.coverage && Alternates(WafOf(m), other)
  }

  /** For every accepted route-bound document: its alternatives are exactly its Boolean alternatives if and only if
      different lists with one joined key stand on both sides. */
  lemma {:induction false} RouteBoundExactly(c: Compiler, s: Semantics, m: RuleDocument, carriers: CarrierDocument)
    requires Preparable(c, s, m, carriers) && m.placementMode == "route-bound-v1"
    ensures CoversExactly(m) <==> SharedKeysOnBothSides(m)
  {
    hide Preparable, Join, AlternativesOf;
    SameJoinedKeys(c, s, m, carriers);
    var w := WafOf(m);
    if SharedKeysOnBothSides(m) {
      forall ids | ids in m.coverage ensures Alternates(w, ids) {
        var i :| 0 <= i < |m.coverage| && m.coverage[i] == ids;
        var k :| 0 <= k < |w.alternatives| && Join(w.alternatives[k].componentIds) == Join(ids);
        assert Alternates(w, w.alternatives[k].componentIds);
      }
      forall ids | Alternates(w, ids) ensures ids in m.coverage {
        var k :| 0 <= k < |w.alternatives| && w.alternatives[k].componentIds == ids;
        var i :| 0 <= i < |m.coverage| && Join(m.coverage[i]) == Join(ids);
        assert m.coverage[i] in m.coverage;
      }
    }
  }

  /** Different coverage lists have different joined keys. */
  predicate CoverageToldApart(m: RuleDocument) {
    forall i, j :: 0 <= i < |m.coverage| && 0 <= j < |m.coverage| && Join(m.coverage[i]) == Join(m.coverage[j]) ==>
      m.coverage[i] == m.coverage[j]
  }

  /** Every alternative that has the joined key of a coverage list is that list. */
  predicate KeysNameTheirLists(m: RuleDocument) {
    forall k, i :: 0 <= k < |m.routeAlternatives| && 0 <= i < |m.coverage|
                   && Join(m.routeAlternatives[k].componentIds) == Join(m.coverage[i]) ==>
      m.routeAlternatives[k].componentIds == m.coverage[i]
  }

  lemma {:induction false} CoveredByKeys(m: RuleDocument, k: nat, i: nat)
    requires CoversExactly(m) && CoverageToldApart(m) && |WafOf(m).alternatives| == |m.routeAlternatives|
    requires k < |m.routeAlternatives| && i < |m.coverage|
    requires WafOf(m).alternatives[k].componentIds == m.routeAlternatives[k].componentIds
    requires Join(m.routeAlternatives[k].componentIds) == Join(m.coverage[i])
    ensures m.routeAlternatives[k].componentIds == m.coverage[i]
  {
    hide Join, AlternativesOf, Compiled;
    var ids := m.routeAlternatives[k].componentIds;
    assert Alternates(WafOf(m), ids);
    assert ids in m.coverage;
    var j :| 0 <= j < |m.coverage| && m.coverage[j] == ids;
  }

  lemma {:induction false} NamedByKeys(m: RuleDocument, ids: seq<string>, other: seq<string>)
    requires KeysNameTheirLists(m) && |WafOf(m).alternatives| == |m.routeAlternatives|
    requires forall k :: 0 <= k < |m.routeAlternatives| ==>
               WafOf(m).alternatives[k].componentIds == m.routeAlternatives[k].componentIds
    requires Alternates(WafOf(m), ids) && other in m.coverage && Join(ids) == Join(other)
    ensures ids == other
  {
    hide Join, AlternativesOf, Compiled;
    var k :| 0 <= k < |WafOf(m).alternatives| && WafOf(m).alternatives[k].componentIds == ids;
    var i :| 0 <= i < |m.coverage| && m.coverage[i] == other;
    assert m.routeAlternatives[k].componentIds == m.coverage[i];
  }

  /** When the joined keys tell the coverage lists apart, the alternatives are exactly these lists if and only if none
      of them shares its key with another list. */
  lemma {:induction false} RouteBoundByKeys(c: Compiler, s: Semantics, m: RuleDocument, carriers: CarrierDocument)
    requires Preparable(c, s, m, carriers) && m.placementMode == "route-bound-v1" && CoverageToldApart(m)
    ensures CoversExactly(m) <==> KeysNameTheirLists(m)
  {
    AlternativesAreRouteBound(c, s, m, carriers);
    RouteBoundExactly(c, s, m, carriers);
    hide Preparable, Join, WafOf, Alternates, CoverageToldApart, CoversExactly;
    if CoversExactly(m) {
      forall k, i | 0 <= k < |m.routeAlternatives| && 0 <= i < |m.coverage|
                    && Join(m.routeAlternatives[k].componentIds) == Join(m.coverage[i])
        ensures m.routeAlternatives[k].componentIds == m.coverage[i]
      {
        CoveredByKeys(m, k, i);
      }
    } else if KeysNameTheirLists(m) {
      hide KeysNameTheirLists;
      forall ids, other | Alternates(WafOf(m), ids) && other in m.coverage && Join(ids) == Join(other)
        ensures ids == other
      {
        NamedByKeys(m, ids, other);
      }
    }
  }

  lemma {:induction false} AlternativesAreRouteBound(c: Compiler, s: Semantics, m: RuleDocument,
                                                     carriers: CarrierDocument)
    requires Preparable(c, s, m, carriers) && m.placementMode == "route-bound-v1"
    ensures |WafOf(m).alternatives| == |m.routeAlternatives|
    ensures forall k :: 0 <= k < |m.routeAlternatives| ==>
              WafOf(m).alternatives[k].componentIds == m.routeAlternatives[k].componentIds
  {
    hide RulesFitBindings, AlternativeFits, EveryCoverageRepresented, Compiled, Runnable;
  }

  /** When no rule is for a component with a NUL in its identifier, that is so exactly when no coverage list holds a
      NUL: a list that does is taken for one it does not name. */
  lemma {:induction false} RouteBoundUnlessNul(c: Compiler, s: Semantics, m: RuleDocument, carriers: CarrierDocument)
    requires Preparable(c, s, m, carriers) && m.placementMode == "route-bound-v1"
    requires NulFree(Components(m.rules))
    ensures CoversExactly(m) <==> forall i :: 0 <= i < |m.coverage| ==> NulFree(m.coverage[i])
  {
    hide RulesFitBindings, PlacementFits, Join, AlternativesOf;
    var w := WafOf(m);
    forall k | 0 <= k < |w.alternatives| ensures NulFree(w.alternatives[k].componentIds) {
      assert NamesRules(w.rules, w.alternatives[k].componentIds);
      forall n | 0 <= n < |w.alternatives[k].componentIds| ensures NUL[0] !in w.alternatives[k].componentIds[n] {
        assert w.alternatives[k].componentIds[n] in Components(m.rules);
      }
    }
    if CoversExactly(m) {
      forall i | 0 <= i < |m.coverage| ensures NulFree(m.coverage[i]) {
        assert m.coverage[i] in m.coverage;
      }
    }
    if forall i :: 0 <= i < |m.coverage| ==> NulFree(m.coverage[i]) {
      SharedByEqualLists(c, s, m, carriers);
      RouteBoundExactly(c, s, m, carriers);
    }
  }

  /** Lists without NULs that share a joined key are equal. */
  lemma {:induction false} SharedByEqualLists(c: Compiler, s: Semantics, m: RuleDocument, carriers: CarrierDocument)
    requires Preparable(c, s, m, carriers) && m.placementMode == "route-bound-v1"
    requires forall i :: 0 <= i < |m.coverage| ==> NulFree(m.coverage[i])
    requires forall i :: 0 <= i < |AlternativesOf(m)| ==> NulFree(AlternativesOf(m)[i].componentIds)
    ensures forall ids, other :: Alternates(WafOf(m), ids) && other in m.coverage && Join(ids) == Join(other) ==>
            ids == other
  {
    hide Preparable, AlternativesOf, NulFree;
    SameJoinedKeys(c, s, m, carriers);
    var w := WafOf(m);
    forall ids, other | Alternates(w, ids) && other in m.coverage && Join(ids) == Join(other) ensures ids == other {
      var k :| 0 <= k < |w.alternatives| && w.alternatives[k].componentIds == ids;
      var i :| 0 <= i < |m.coverage| && m.coverage[i] == other;
      assert other != [];
      JoinIsInjective(ids, other);
    }
  }

  /** With NUL-free identifiers, the alternatives of an accepted route-bound document are exactly its Boolean
      alternatives, each bound to at least one route. */
  lemma {:induction false} RouteBoundCoversEveryAlternative(c: Compiler, s: Semantics, m: RuleDocument,
                                                            carriers: CarrierDocument, ids: seq<string>)
    requires Preparable(c, s, m, carriers) && m.placementMode == "route-bound-v1"
    requires forall i :: 0 <= i < |m.coverage| ==> NulFree(m.coverage[i])
    requires forall i :: 0 <= i < |m.routeAlternatives| ==> NulFree(m.routeAlternatives[i].componentIds)
    ensures Alternates(WafOf(m), ids) <==> ids in m.coverage
  {
    hide RulesFitBindings, Join, NulFree, AlternativeFits, EveryCoverageRepresented;
    SharedByEqualLists(c, s, m, carriers);
    RouteBoundExactly(c, s, m, carriers);
  }

  const RULE_A := Rule("r1", "a", "query", "q", "p", [], [])
  const RULE_B := Rule("r2", "b", "query", "q", "p", [], [])
  const BINDING_A := CarrierBinding("a", "query", "q")
  const BINDING_B := CarrierBinding("b", "query", "q")
  const INPUT_REF := TypedRef(Kind.TestInput, "s", "i")
  const ROUTE := OpaqueRoute("GET", "k")
  const BOTH_ON_ROUTE :=
    RouteAlternative("x", ["a", "b"],
                     [ComponentBinding("a", Some([INPUT_REF])), ComponentBinding("b", Some([INPUT_REF]))], ROUTE)

  const BOTH_COMPONENTS := [Component.Component("a", [INPUT_REF], []), Component.Component("b", [INPUT_REF], [])]
  const ONE_INPUT := [TestInput.TestInput("i", [], INPUT_REF,
                                          HttpInput("http-request-template", "GET", "", "", "", "k"))]

  lemma {:induction false} RulesOfBothAdmitted()
    ensures RulesFitBindings(KEEP_ALL, [RULE_A, RULE_B], [BINDING_A, BINDING_B])
    ensures NamesRules(Compiled([RULE_A, RULE_B]), ["a", "b"])
  {
    hide Compiled;
    var rules, bindings := [RULE_A, RULE_B], [BINDING_A, BINDING_B];
    var keys := CarrierKeys(KEEP_ALL, bindings);
    assert RuleKey(KEEP_ALL, RULE_A) == keys[0] && RuleKey(KEEP_ALL, RULE_B) == keys[1];
    assert keys[0][0] == 'a' && keys[1][0] == 'b';
    assert RuleAdmitted(KEEP_ALL, RULE_A, bindings) && RuleAdmitted(KEEP_ALL, RULE_B, bindings);
    assert "a"[0] != "b"[0];
    assert Components(rules)[0] == "a" && Components(rules)[1] == "b";
    var first := CompiledIsLast(rules, "a");
    var second := CompiledIsLast(rules, "b");
  }

  /** Both components are bound to the one input, over its route. */
  lemma {:induction false} BothAreBound()
    ensures BindingsOf(BOTH_ON_ROUTE.bindings) == map["a" := Some([INPUT_REF]), "b" := Some([INPUT_REF])]
    ensures Index(BOTH_COMPONENTS, ComponentKey) == map["a" := BOTH_COMPONENTS[0], "b" := BOTH_COMPONENTS[1]]
    ensures InputRoutes(ONE_INPUT) == map["i" := ROUTE]
    ensures InputsOnRoute([INPUT_REF], map["i" := ROUTE], ROUTE) == [INPUT_REF]
  {
    var bindings := BOTH_ON_ROUTE.bindings;
    assert bindings[..1] == [bindings[0]] && bindings[..1][..0] == [] && BindingsOf([]) == map[];
    assert BindingsOf([bindings[0]]) == map["a" := Some([INPUT_REF])];
    assert BOTH_COMPONENTS[..1] == [BOTH_COMPONENTS[0]] && BOTH_COMPONENTS[..1][..0] == [];
    assert Index([BOTH_COMPONENTS[0]], ComponentKey) == map["a" := BOTH_COMPONENTS[0]] by {
      assert Index<Component>([], ComponentKey) == map[];
    }
    assert ONE_INPUT[..0] == [] && InputRoutes([]) == map[];
    assert InputsOnRoute([], map["i" := ROUTE], ROUTE) == [];
    assert [INPUT_REF][..0] == [];
  }

  const MISREAD := RuleDocument("set", "block", "route-bound-v1", [["a\0b"]], [BOTH_ON_ROUTE], [RULE_A, RULE_B])

  lemma {:induction false} JoinedAlike()
    ensures Join(["a", "b"]) == Join(["a\0b"])
  {
    assert ["a", "b"][1..] == ["b"];
    assert "a" + NUL + "b" == "a\0b";
  }

  lemma {:induction false} BothFit()
    ensures AlternativeFits([["a\0b"]], Index(BOTH_COMPONENTS, ComponentKey), InputRoutes(ONE_INPUT), BOTH_ON_ROUTE)
  {
    hide BindingsOf, Index, InputRoutes, InputsOnRoute, Join;
    BothAreBound();
    JoinedAlike();
    assert Join([["a\0b"]][0]) == Join(BOTH_ON_ROUTE.componentIds);
  }

  /** An accepted route-bound document whose coverage names one component, a NUL b, which does not exist, and which gets
      the conjunction of a and b instead. */
  lemma {:induction false} NulListIsMisread(s: Semantics)
    requires s.components == BOTH_COMPONENTS && s.testInputs == ONE_INPUT
    ensures Preparable(KEEP_ALL, s, MISREAD, CarrierDocument("set", [BINDING_A, BINDING_B]))
    ensures Alternates(WafOf(MISREAD), ["a", "b"]) && !Alternates(WafOf(MISREAD), ["a\0b"])
  {
    hide RulesFitBindings, Compiled, AlternativeFits, Join;
    RulesOfBothAdmitted();
    BothFit();
    JoinedAlike();
    assert RepresentedBySome(MISREAD, MISREAD.coverage[0]) by {
      assert Join(MISREAD.routeAlternatives[0].componentIds) == Join(MISREAD.coverage[0]);
    }
    assert |["a", "b"]| != |["a\0b"]|;
    assert WafOf(MISREAD).alternatives[0].componentIds == ["a", "b"];
  }

  lemma {:induction false} InCoverage(coverage: seq<seq<string>>, components: map<string, Component>,
                                      routes: map<string, RouteBinding>, a: RouteAlternative) returns (i: nat)
    requires AlternativeFits(coverage, components, routes, a)
    ensures i < |coverage| && Join(coverage[i]) == Join(a.componentIds)
  {
    hide Join;
    i :| 0 <= i < |coverage| && Join(coverage[i]) == Join(a.componentIds);
  }

  /** No accepted alternative is joined to the empty string: its only component would have no name, and such a component
      cannot be bound. */
  lemma {:induction false} NotJoinedToNothing(coverage: seq<seq<string>>, components: map<string, Component>,
                                              routes: map<string, RouteBinding>, a: RouteAlternative)
    requires AlternativeFits(coverage, components, routes, a) && a.componentIds != []
    ensures Join(a.componentIds) != ""
  {
    if Join(a.componentIds) == "" {
      assert a.componentIds == [""];
      assert BoundExactly(BindingsOf(a.bindings), components, routes, a.route, a.componentIds[0]);
      var i := BindingIsLast(a.bindings, "");
    }
  }

  /** The component is bound to an input if and only if it is one of its authenticated inputs and goes over the route.
      */
  predicate BoundRightly(s: Semantics, a: RouteAlternative, id: string, ref: TypedRef) {
    var routes := InputRoutes(s.testInputs);
    var given := BindingsOf(a.bindings);
    && id in given && given[id].Some? && |given[id].value| > 0
    && (ref in given[id].value <==>
          && ref in ComponentInputs(Index(s.components, ComponentKey), id)
          && ref.id in routes && routes[ref.id] == a.route)
  }

  /** Every component of an alternative is bound to exactly those of its authenticated inputs that go over the
      alternative's route, and there is at least one. */
  lemma {:induction false} BoundToAuthenticatedInputs(c: Compiler, s: Semantics, m: RuleDocument,
                                                      carriers: CarrierDocument,
                                                      a: RouteAlternative, id: string, ref: TypedRef)
    requires Preparable(c, s, m, carriers) && m.placementMode == "route-bound-v1"
    ensures a in m.routeAlternatives && id in a.componentIds ==> BoundRightly(s, a, id, ref)
  {
    hide RulesFitBindings, Join, Identified, ValidRoute, NoBoundDuplicate, BindingsOf, InputRoutes, Runnable;
    if a in m.routeAlternatives && id in a.componentIds {
      var components, routes := Index(s.components, ComponentKey), InputRoutes(s.testInputs);
      assert RouteBound(m, s);
      assert AlternativeFits(m.coverage, components, routes, a);
      var k :| 0 <= k < |a.componentIds| && a.componentIds[k] == id;
      assert BoundExactly(BindingsOf(a.bindings), components, routes, a.route, a.componentIds[k]);
      InputsOnRouteAre(ComponentInputs(components, id), routes, a.route, ref);
    }
  }

  lemma {:induction false} InputsOnRouteAre(refs: seq<TypedRef>, routes: map<string, RouteBinding>,
                                            route: RouteBinding, ref: TypedRef)
    ensures ref in InputsOnRoute(refs, routes, route) <==> ref in refs && ref.id in routes && routes[ref.id] == route
    decreases |refs|
  {
    if refs != [] {
      InputsOnRouteAre(refs[..|refs| - 1], routes, route, ref);
      assert refs == refs[..|refs| - 1] + [refs[|refs| - 1]];
    }
  }
}
