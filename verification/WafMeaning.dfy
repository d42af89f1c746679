/**
 What a prepared WAF means in terms of the documents it was prepared from: which rule a component stands for, which
 carrier it reads, over which routes its inputs go, and which requests are blocked.
 */
module WafMeaning {
  import opened Collections
  import opened Wrappers
  import opened Refs
  import opened Coverage
  import opened Semantics
  import opened Waf
  import opened WafEvaluation

  // ----- patterns ------------------------------------------------------------------------------

  /** The letters are the flags other than u, one behind the other. */
  predicate Letters(letters: string, flags: seq<string>)
    decreases |flags|
  {
    if flags == [] then letters == ""
    else if flags[0] == "u" then Letters(letters, flags[1..])
    else flags[0] <= letters && Letters(letters[|flags[0]|..], flags[1..])
  }

  lemma {:induction false} PrefixFirst(flags: seq<string>)
    requires flags != []
    ensures Prefix(flags) == (if flags[0] == "u" then "" else flags[0]) + Prefix(flags[1..])
    decreases |flags|
  {
    var last := flags[|flags| - 1];
    if |flags| == 1 {
      assert flags[..0] == [] && flags[1..] == [];
      assert Prefix([]) == "";
    } else {
      var init := flags[..|flags| - 1];
      PrefixFirst(init);
      assert init[1..] == flags[1..][..|flags[1..]| - 1];
      assert flags[1..][|flags[1..]| - 1] == last;
    }
  }

  lemma {:induction false} PrefixIsLetters(flags: seq<string>)
    ensures Letters(Prefix(flags), flags)
    decreases |flags|
  {
    if flags != [] {
      PrefixFirst(flags);
      PrefixIsLetters(flags[1..]);
      var first := if flags[0] == "u" then "" else flags[0];
      assert (first + Prefix(flags[1..]))[|first|..] == Prefix(flags[1..]);
    }
  }

  /** A rule's pattern is its own, behind a group of its flags other than u when there are any letters. */
  lemma {:induction false} PatternMeans(r: Rule)
    ensures exists letters :: Letters(letters, r.flags)
              && PatternOf(r) == if letters == "" then r.pattern else "(?" + letters + ")" + r.pattern
    ensures forall t ::
              TransformOk(t) <==> t == "urlDecode" || t == "base64Decode" || t == "hexDecode" || t == "lowercase"
    ensures forall f :: FlagOk(f) <==> f == "u" || exists i, j :: 0 <= i <= j <= 3 && f == "ims"[i..j]
  {
    PrefixIsLetters(r.flags);
    forall f | FlagOk(f) && f != "u" ensures exists i, j :: 0 <= i <= j <= 3 && f == "ims"[i..j] {
      var w := "ims";
      assert w[0..0] == "" && w[0..1] == "i" && w[1..2] == "m" && w[2..3] == "s" && w[0..2] == "im" && w[1..3] == "ms";
      assert w[0..3] == "ims";
    }
    forall i, j | 0 <= i <= j <= 3 ensures FlagOk("ims"[i..j]) {
      SliceIsFlag(i, j);
    }
  }

  lemma {:induction false} SliceIsFlag(i: int, j: int)
    requires 0 <= i <= j <= 3
    ensures FlagOk("ims"[i..j])
  {
    var w := "ims";
    assert w[0..0] == w[1..1] == w[2..2] == w[3..3] == "" && w[0..1] == "i" && w[1..2] == "m" && w[2..3] == "s";
    assert w[0..2] == "im" && w[1..3] == "ms" && w[0..3] == "ims";
  }

  // ----- the carrier of a rule -----------------------------------------------------------------

  /** As long as nothing holds a NUL, a rule is admitted to the bindings exactly when one of them is for its component
      and carrier and, up to the case of letters, its name. */
  lemma {:induction false} BoundByName(c: Compiler, r: Rule, bindings: seq<CarrierBinding>)
    requires NUL[0] !in r.componentId && NUL[0] !in r.carrier && NUL[0] !in c.lower(r.name)
    ensures RuleKey(c, r) in CarrierKeys(c, bindings)
       <==> exists i :: 0 <= i < |bindings| && bindings[i].componentId == r.componentId
                        && bindings[i].carrier == r.carrier && c.lower(bindings[i].name) == c.lower(r.name)
  {
    var keys := CarrierKeys(c, bindings);
    KeyIsUnambiguous(r.componentId, r.carrier, c.lower(r.name));
    if RuleKey(c, r) in keys {
      var i :| 0 <= i < |keys| && keys[i] == RuleKey(c, r);
      var b := bindings[i];
      assert Key3(b.componentId, b.carrier, c.lower(b.name)) == Key3(r.componentId, r.carrier, c.lower(r.name));
    }
    if i :| 0 <= i < |bindings| && bindings[i].componentId == r.componentId
            && bindings[i].carrier == r.carrier && c.lower(bindings[i].name) == c.lower(r.name) {
      assert keys[i] == RuleKey(c, r);
    }
  }

  // ----- routes of inputs ----------------------------------------------------------------------

  /** The input is sent over this route: a template by its verb and path key, a request by its verb, scheme, authority
      and path. */
  predicate SentOver(i: HttpInput, route: RouteBinding) {
    && i.verb != "" && route.verb == i.verb
    && if route.kind == "opaque-path-key" then
         && i.modality == "http-request-template" && i.pathKey != "" && route.pathKey == i.pathKey
         && route.scheme == "" && route.authority == "" && route.path == ""
       else
         && route.kind == "rendered-http-route" && i.modality == "http-request" && i.path != "" && route.path == i.path
         && route.scheme == i.scheme && route.authority == i.authority && route.pathKey == ""
  }

  lemma {:induction false} RouteMeans(i: HttpInput, route: RouteBinding)
    ensures InputRoute(i) == Some(route) <==> SentOver(i, route)
  {
    assert |"opaque-path-key"| != |"rendered-http-route"| && |"http-request-template"| != |"http-request"|;
  }

  ghost predicate GoesOver(inputs: seq<TestInput>, id: string, route: RouteBinding) {
    exists i :: 0 <= i < |inputs| && inputs[i].inputId == id && SentOver(inputs[i].input, route)
  }

  lemma {:induction false} RoutesAre(inputs: seq<TestInput>, id: string, route: RouteBinding)
    requires Distinct(Ids(inputs, InputKey))
    ensures id in InputRoutes(inputs) && InputRoutes(inputs)[id] == route <==> GoesOver(inputs, id, route)
    ensures id in InputRoutes(inputs) ==> exists i :: 0 <= i < |inputs| && inputs[i].inputId == id
    decreases |inputs|
  {
    hide SentOver, InputRoute;
    if inputs != [] {
      var init, last := inputs[..|inputs| - 1], inputs[|inputs| - 1];
      LastIsNew(inputs, InputKey);
      RoutesAre(init, id, route);
      RouteMeans(last.input, route);
      if GoesOver(init, id, route) {
        var i :| 0 <= i < |init| && init[i].inputId == id && SentOver(init[i].input, route);
        assert inputs[i].inputId == id;
      }
      if GoesOver(inputs, id, route) {
        var i :| 0 <= i < |inputs| && inputs[i].inputId == id && SentOver(inputs[i].input, route);
        assert i < |init| ==> init[i].inputId == id;
      }
    }
  }

  /** The component has the input, and the input is sent over the route. */
  ghost predicate OwnInputOver(s: Semantics, id: string, ref: TypedRef, route: RouteBinding) {
    && (exists k :: 0 <= k < |s.components| && s.components[k].componentId == id && ref in s.components[k].inputRefs)
    && GoesOver(s.testInputs, ref.id, route)
  }

  lemma {:induction false} InputsOf(s: Semantics, id: string, ref: TypedRef)
    requires Distinct(Ids(s.components, ComponentKey))
    ensures ref in ComponentInputs(Index(s.components, ComponentKey), id)
       <==> exists k :: 0 <= k < |s.components| && s.components[k].componentId == id && ref in s.components[k].inputRefs
  {
    IndexFinds(s.components, ComponentKey);
    var index := Index(s.components, ComponentKey);
    if id in index {
      var k :| 0 <= k < |s.components| && ComponentKey(s.components[k]) == id;
      assert index[ComponentKey(s.components[k])] == s.components[k];
    }
    forall k | 0 <= k < |s.components| && s.components[k].componentId == id
      ensures id in index && index[id] == s.components[k] {
      assert ComponentKey(s.components[k]) == id;
    }
  }

  /** In an accepted route-bound document over semantics with distinct identifiers, the binding of a component that
      counts lists exactly those of its own inputs that are sent over the alternative's route, and at least one. */
  lemma {:induction false} BoundToItsInputs(c: Compiler, s: Semantics, m: RuleDocument, carriers: CarrierDocument,
                                            a: RouteAlternative, id: string, ref: TypedRef) returns (n: nat)
    requires Preparable(c, s, m, carriers) && m.placementMode == "route-bound-v1"
    requires Distinct(Ids(s.testInputs, InputKey)) && Distinct(Ids(s.components, ComponentKey))
    requires a in m.routeAlternatives && id in a.componentIds
    ensures n < |a.bindings| && a.bindings[n].componentId == id
    ensures forall k :: n < k < |a.bindings| ==> a.bindings[k].componentId != id
    ensures a.bindings[n].inputRefs.Some? && |a.bindings[n].inputRefs.value| > 0
    ensures ref in a.bindings[n].inputRefs.value <==> OwnInputOver(s, id, ref, a.route)
  {
    hide Preparable, Index, InputRoutes, GoesOver, ComponentInputs;
    BoundToAuthenticatedInputs(c, s, m, carriers, a, id, ref);
    n := BindingIsLast(a.bindings, id);
    InputsOf(s, id, ref);
    RoutesAre(s.testInputs, ref.id, a.route);
  }

  /** What an accepted pair of documents looks like: a blocking rule set under one name, as many rules as bindings and
      at least one, no two bindings with one joined key, each rule's key bound, its pattern compiled and its flags and
      transformations known. */
  lemma {:induction false} AcceptedRules(c: Compiler, s: Semantics, m: RuleDocument, carriers: CarrierDocument, i: nat,
                                         k: nat)
    requires Preparable(c, s, m, carriers)
    ensures m.action == "block" && m.ruleSetId != "" && m.ruleSetId == carriers.ruleSetId
    ensures |m.rules| == |carriers.bindings| > 0 && (m.placementMode == "" || m.placementMode == "route-bound-v1")
    ensures i < |m.rules| ==>
              && (exists n ::
                    0 <= n < |carriers.bindings| && CarrierKey(c, carriers.bindings[n]) == RuleKey(c, m.rules[i]))
              && c.compiles(PatternOf(m.rules[i]))
              && (k < |m.rules[i].flags| ==> FlagOk(m.rules[i].flags[k]))
              && (k < |m.rules[i].transformations| ==> TransformOk(m.rules[i].transformations[k]))
    ensures i < k < |carriers.bindings| ==> CarrierKey(c, carriers.bindings[i]) != CarrierKey(c, carriers.bindings[k])
    ensures i < k < |m.rules| && m.rules[i].componentId == m.rules[k].componentId ==> m.rules[i].ruleId == ""
  {
    hide RouteBound, Runnable, FlagOk, TransformOk, PatternOf, RuleKey, CarrierKey;
    var keys := CarrierKeys(c, carriers.bindings);
    if i < |m.rules| {
      assert RuleAdmitted(c, m.rules[i], carriers.bindings);
      var n :| 0 <= n < |keys| && keys[n] == RuleKey(c, m.rules[i]);
    }
    if i < k < |carriers.bindings| {
      assert keys[i] != keys[k];
    }
  }

  /** And an accepted route-bound one: at least one alternative, each with an identifier of its own, over a route of
      one of the two kinds, and with as many bound components as it names. */
  lemma {:induction false} AcceptedAlternatives(c: Compiler, s: Semantics, m: RuleDocument, carriers: CarrierDocument,
                                                i: nat, k: nat)
    requires Preparable(c, s, m, carriers) && m.placementMode == "route-bound-v1"
    ensures |m.routeAlternatives| > 0
    ensures i < k < |m.routeAlternatives| ==>
              m.routeAlternatives[i].alternativeId != m.routeAlternatives[k].alternativeId
    ensures i < |m.routeAlternatives| ==>
              var a := m.routeAlternatives[i];
              && a.alternativeId != "" && a.componentIds != [] && a.route.verb != ""
              && |set b | b in a.bindings :: b.componentId| == |a.componentIds|
              && (if a.route.kind == "opaque-path-key" then
                    a.route.pathKey != "" && a.route.scheme == a.route.authority == a.route.path == ""
                  else a.route.kind == "rendered-http-route" && a.route.path != "" && a.route.pathKey == "")
    ensures i < |s.components| ==> s.components[i].componentId != ""
  {
    hide RulesFitBindings, EveryCoverageRepresented, BoundExactly, Index, InputRoutes;
    var ids := Ids(m.routeAlternatives, AlternativeKey);
    if i < |m.routeAlternatives| {
      var a := m.routeAlternatives[i];
      assert ids[i] != "";
      assert AlternativeFits(m.coverage, Index(s.components, ComponentKey), InputRoutes(s.testInputs), a);
      assert NamesRules(WafOf(m).rules, WafOf(m).alternatives[i].componentIds);
      BoundNames(a.bindings);
      assert |BindingsOf(a.bindings)| == |BindingsOf(a.bindings).Keys|;
    }
    if i < k < |m.routeAlternatives| {
      assert ids[i] != ids[k];
    }
  }

  lemma {:induction false} BoundNames(bindings: seq<ComponentBinding>)
    ensures BindingsOf(bindings).Keys == set b | b in bindings :: b.componentId
    decreases |bindings|
  {
    if bindings != [] {
      var init, last := bindings[..|bindings| - 1], bindings[|bindings| - 1];
      BoundNames(init);
      assert bindings == init + [last];
    }
  }

  // ----- what is blocked -----------------------------------------------------------------------

  /** The last rule for the component matches a delivered value, after its transformations. */
  ghost predicate ComponentMatches(p: Probe, m: RuleDocument, id: string) {
    exists n :: 0 <= n < |m.rules| && LastFor(m.rules, n, id)
                && RuleMatches(p, CompiledRule(m.rules[n].ruleId, m.rules[n].carrier, m.rules[n].name,
                                               PatternOf(m.rules[n]), m.rules[n].transformations))
  }

  predicate LastFor(rules: seq<Rule>, n: int, id: string) {
    0 <= n < |rules| && rules[n].componentId == id && forall k :: n < k < |rules| ==> rules[k].componentId != id
  }

  ghost predicate ListMatches(p: Probe, m: RuleDocument, ids: seq<string>) {
    forall k :: 0 <= k < |ids| ==> ComponentMatches(p, m, ids[k])
  }

  /** Everything the request delivers can be read and transformed. */
  ghost predicate Deliverable(p: Probe, w: PreparedWaf) {
    Transforms(p, w.rules) && forall id :: id in w.rules ==> p.values(w.rules[id]).Values?
  }

  lemma {:induction false} MatchesByDocument(p: Probe, m: RuleDocument, id: string)
    requires id in Compiled(m.rules)
    ensures RuleMatches(p, Compiled(m.rules)[id]) <==> ComponentMatches(p, m, id)
  {
    hide RuleMatches, PatternOf;
    var n := CompiledIsLast(m.rules, id);
    var r := m.rules[n];
    assert Compiled(m.rules)[id] == CompiledRule(r.ruleId, r.carrier, r.name, PatternOf(r), r.transformations);
    assert LastFor(m.rules, n, id);
    forall k | LastFor(m.rules, k, id) ensures k == n {
    }
  }

  lemma {:induction false} ListByDocument(p: Probe, m: RuleDocument, a: Alternative)
    requires NamesRules(Compiled(m.rules), a.componentIds)
    ensures AllMatch(p, Compiled(m.rules), a) <==> ListMatches(p, m, a.componentIds)
  {
    hide RuleMatches, ComponentMatches, Compiled;
    forall k | 0 <= k < |a.componentIds|
      ensures RuleMatches(p, Compiled(m.rules)[a.componentIds[k]]) <==> ComponentMatches(p, m, a.componentIds[k])
    {
      MatchesByDocument(p, m, a.componentIds[k]);
    }
  }

  /** What the document asks to be blocked: a route alternative for this route, or a coverage list, of which all
      components match, or without coverage lists any rule. */
  ghost predicate DocumentBlocks(p: Probe, m: RuleDocument, route: RouteBinding) {
    if m.placementMode == "route-bound-v1" then
      exists i :: 0 <= i < |m.routeAlternatives| && m.routeAlternatives[i].route == route
                  && ListMatches(p, m, m.routeAlternatives[i].componentIds)
    else if |m.coverage| > 0 then exists i :: 0 <= i < |m.coverage| && ListMatches(p, m, m.coverage[i])
    else exists i :: 0 <= i < |m.rules| && ComponentMatches(p, m, m.rules[i].componentId)
  }

  /** For every accepted document and every request: as long as what the request delivers can be transformed, it is
      blocked exactly when the document asks for it; and when it can all be read too, it is let through otherwise. */
  lemma {:induction false} BlocksAsDocumented(c: Compiler, s: Semantics, m: RuleDocument, carriers: CarrierDocument,
                                              p: Probe, route: RouteBinding)
    requires Preparable(c, s, m, carriers) && ExecutedRoute(route) && Transforms(p, WafOf(m).rules)
    ensures Judge(p, WafOf(m), route, 0, None).BlockedBy? <==> DocumentBlocks(p, m, route)
    ensures Deliverable(p, WafOf(m)) && !DocumentBlocks(p, m, route) ==>
            Judge(p, WafOf(m), route, 0, None) == NotBlocked
  {
    hide Transforms, Judge, AllMatch, ListMatches, RulesFitBindings, AlternativesOf, AlternativeFits;
    EvaluationIsBoolean(p, WafOf(m), route);
    MatchesAsDocumented(c, s, m, carriers, p, route);
  }

  lemma {:induction false} MatchesAsDocumented(c: Compiler, s: Semantics, m: RuleDocument, carriers: CarrierDocument,
                                               p: Probe, route: RouteBinding)
    requires Preparable(c, s, m, carriers) && ExecutedRoute(route)
    ensures Matches(p, WafOf(m), route) <==> DocumentBlocks(p, m, route)
  {
    AlternativesStand(m, s);
    RoutesAreValid(c, s, m, carriers);
    hide AllMatch, ListMatches, RulesFitBindings, PlacementFits, AlternativesOf, Compiled, ValidRoute, RouteApplies;
    hide ExecutedRoute, ComponentMatches;
    var w := WafOf(m);
    forall i | 0 <= i < |w.alternatives|
      ensures AllMatch(p, w.rules, w.alternatives[i]) <==> ListMatches(p, m, w.alternatives[i].componentIds)
      ensures w.alternatives[i].route.Some? ==>
                (RouteApplies(w.alternatives[i].route.value, route) <==> w.alternatives[i].route.value == route)
    {
      assert NamesRules(w.rules, w.alternatives[i].componentIds);
      ListByDocument(p, m, w.alternatives[i]);
      if w.alternatives[i].route.Some? {
        AppliesIsEquality(w.alternatives[i].route.value, route);
      }
    }
    forall id ensures ListMatches(p, m, [id]) <==> ComponentMatches(p, m, id) {
      OneComponent(p, m, id);
    }
  }

  lemma {:induction false} OneComponent(p: Probe, m: RuleDocument, id: string)
    ensures ListMatches(p, m, [id]) <==> ComponentMatches(p, m, id)
  {
    hide ComponentMatches;
    assert [id][0] == id;
  }

  lemma {:induction false} RoutesAreValid(c: Compiler, s: Semantics, m: RuleDocument, carriers: CarrierDocument)
    requires Preparable(c, s, m, carriers)
    ensures forall i :: 0 <= i < |WafOf(m).alternatives| && WafOf(m).alternatives[i].route.Some? ==>
              ValidRoute(WafOf(m).alternatives[i].route.value)
  {
    hide RulesFitBindings, BoundExactly, Compiled, ValidRoute, Runnable, EveryCoverageRepresented;
    AlternativesStand(m, s);
  }
}
