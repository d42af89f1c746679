/**
 sharedPreparedWAF.evaluate of api/shared_contract_v2.go: what a prepared WAF does with a request. Reading a carrier,
 applying transformations and matching a pattern are parameters.
 */
module WafEvaluation {
  import opened Wrappers
  import opened Waf

  datatype CarrierValues = Values(items: seq<string>) | CarrierError(message: string)

  datatype Transformed = Bytes(text: string) | TransformError(message: string)

  /** One request: sharedCarrierValues for it, applySharedWAFTransforms, and the match of a compiled pattern. */
  datatype Probe = Probe(
    values: CompiledRule -> CarrierValues, transform: (seq<string>, string) -> Transformed,
    matches: (string, string) -> bool)

  datatype Verdict = BlockedBy(ruleId: string) | NotBlocked | Failed(message: string)

  /** What one value, one rule or one alternative comes to. */
  datatype Judgement = Hit(ruleId: string) | Miss | Fault(message: string) | Abort(message: string)

  function JudgeValue(p: Probe, r: CompiledRule, value: string): Judgement {
    match p.transform(r.transformations, value)
    case TransformError(message) => Abort(message)
    case Bytes(text) => if p.matches(r.pattern, text) then Hit(r.ruleId) else Miss
  }

  /** The first value that does not miss decides. */
  function JudgeValues(p: Probe, r: CompiledRule, values: seq<string>): Judgement {
    if values == [] then Miss
    else match JudgeValue(p, r, values[0])
         case Miss => JudgeValues(p, r, values[1..])
         case other => other
  }

  function JudgeRule(p: Probe, r: CompiledRule): Judgement {
    match p.values(r)
    case CarrierError(message) => Fault(message)
    case Values(items) => JudgeValues(p, r, items)
  }

  /** The first component that does not hit decides; if all do, the last one names the rule. */
  function JudgeComponents(p: Probe, rules: map<string, CompiledRule>, ids: seq<string>, last: string): Judgement
    requires forall k :: 0 <= k < |ids| ==> ids[k] in rules
  {
    if ids == [] then Hit(last)
    else match JudgeRule(p, rules[ids[0]])
         case Hit(ruleId) => JudgeComponents(p, rules, ids[1..], ruleId)
         case other => other
  }

  predicate Applicable(a: Alternative, route: RouteBinding) {
    a.route.None? || RouteApplies(a.route.value, route)
  }

  function JudgeAlternative(p: Probe, rules: map<string, CompiledRule>, a: Alternative): Judgement
    requires NamesRules(rules, a.componentIds)
  {
    JudgeComponents(p, rules, a.componentIds, "")
  }

  /** The alternatives in order: a hit or an abort ends it, the first fault is kept for the end. */
  function Judge(p: Probe, w: PreparedWaf, route: RouteBinding, n: nat, fault: Option<string>): Verdict
    requires Runnable(w) && n <= |w.alternatives|
    decreases |w.alternatives| - n
  {
    if n == |w.alternatives| then (if fault.Some? then Failed(fault.value) else NotBlocked)
    else if !Applicable(w.alternatives[n], route) then Judge(p, w, route, n + 1, fault)
    else match JudgeAlternative(p, w.rules, w.alternatives[n])
         case Hit(ruleId) => BlockedBy(ruleId)
         case Miss => Judge(p, w, route, n + 1, fault)
         case Fault(message) => Judge(p, w, route, n + 1, if fault.Some? then fault else Some(message))
         case Abort(message) => Failed(message)
  }

  /** The loop over the values of one rule. */
  method EvaluateRule(p: Probe, r: CompiledRule) returns (judgement: Judgement)
    ensures judgement == JudgeRule(p, r)
  {
    var values := p.values(r);
    if values.CarrierError? {
      return Fault(values.message);
    }
    for i := 0 to |values.items|
      invariant JudgeValues(p, r, values.items[i..]) == JudgeValues(p, r, values.items)
    {
      assert values.items[i..][0] == values.items[i] && values.items[i..][1..] == values.items[i + 1..];
      var transformed := p.transform(r.transformations, values.items[i]);
      if transformed.TransformError? {
        return Abort(transformed.message);
      }
      if p.matches(r.pattern, transformed.text) {
        return Hit(r.ruleId);
      }
    }
    return Miss;
  }

  /** The loop over the components of one alternative. */
  method EvaluateAlternative(p: Probe, rules: map<string, CompiledRule>, a: Alternative) returns (judgement: Judgement)
    requires NamesRules(rules, a.componentIds)
    ensures judgement == JudgeAlternative(p, rules, a)
  {
    var last := "";
    for k := 0 to |a.componentIds|
      invariant JudgeComponents(p, rules, a.componentIds[k..], last) == JudgeAlternative(p, rules, a)
    {
      assert a.componentIds[k..][0] == a.componentIds[k] && a.componentIds[k..][1..] == a.componentIds[k + 1..];
      var one := EvaluateRule(p, rules[a.componentIds[k]]);
      if !one.Hit? {
        return one;
      }
      last := one.ruleId;
    }
    return Hit(last);
  }

  /** sharedPreparedWAF.evaluate. */
  method Evaluate(w: PreparedWaf, p: Probe, route: RouteBinding) returns (verdict: Verdict)
    requires Runnable(w)
    ensures verdict == Judge(p, w, route, 0, None)
  {
    var evaluationError: Option<string> := None;
    for n := 0 to |w.alternatives|
      invariant Judge(p, w, route, n, evaluationError) == Judge(p, w, route, 0, None)
    {
      var alternative := w.alternatives[n];
      if alternative.route.None? || RouteApplies(alternative.route.value, route) {
        var judgement := EvaluateAlternative(p, w.rules, alternative);
        match judgement
        case Hit(ruleId) =>
          return BlockedBy(ruleId);
        case Abort(message) =>
          return Failed(message);
        case Fault(message) =>
          if evaluationError.None? {
            evaluationError := Some(message);
          }
        case Miss =>
      }
    }
    return if evaluationError.Some? then Failed(evaluationError.value) else NotBlocked;
  }

  // ----- what evaluation means -----------------------------------------------------------------

  /** The transformed value matches the pattern. */
  predicate ValueHits(p: Probe, r: CompiledRule, value: string) {
    && p.transform(r.transformations, value).Bytes?
    && p.matches(r.pattern, p.transform(r.transformations, value).text)
  }

  /** The value is transformed, and does not match. */
  predicate ValueMisses(p: Probe, r: CompiledRule, value: string) {
    && p.transform(r.transformations, value).Bytes?
    && !p.matches(r.pattern, p.transform(r.transformations, value).text)
  }

  /** The first value that does not miss, or the end of the list. */
  predicate UpTo(p: Probe, r: CompiledRule, values: seq<string>, i: int) {
    && 0 <= i <= |values| && (forall k :: 0 <= k < i ==> ValueMisses(p, r, values[k]))
    && (i < |values| ==> !ValueMisses(p, r, values[i]))
  }

  ghost predicate DecidedBy(p: Probe, r: CompiledRule, i: int) {
    p.values(r).Values? && UpTo(p, r, p.values(r).items, i) && i < |p.values(r).items|
  }

  /** Some delivered value matches, and no value before it fails to be transformed. */
  ghost predicate RuleHits(p: Probe, r: CompiledRule) {
    exists i :: DecidedBy(p, r, i) && ValueHits(p, r, p.values(r).items[i])
  }

  /** Some delivered value fails to be transformed, and no value before it matches. */
  ghost predicate RuleAborts(p: Probe, r: CompiledRule) {
    exists i :: DecidedBy(p, r, i) && p.transform(r.transformations, p.values(r).items[i]).TransformError?
  }

  /** Every delivered value is transformed, and none matches. */
  ghost predicate RuleMisses(p: Probe, r: CompiledRule) {
    p.values(r).Values? && forall i :: 0 <= i < |p.values(r).items| ==> ValueMisses(p, r, p.values(r).items[i])
  }

  lemma {:induction false} JudgedUpTo(p: Probe, r: CompiledRule, values: seq<string>) returns (i: int)
    ensures UpTo(p, r, values, i)
    ensures JudgeValues(p, r, values) == if i < |values| then JudgeValue(p, r, values[i]) else Miss
    decreases |values|
  {
    if values == [] || !JudgeValue(p, r, values[0]).Miss? {
      i := 0;
    } else {
      var n := JudgedUpTo(p, r, values[1..]);
      i := n + 1;
      assert forall k :: 1 <= k < |values| ==> values[k] == values[1..][k - 1];
    }
  }

  lemma {:induction false} OnePlace(p: Probe, r: CompiledRule, values: seq<string>, i: int, k: int)
    requires UpTo(p, r, values, i) && UpTo(p, r, values, k)
    ensures i == k
  {
  }

  /** What judging a rule comes to, in terms of the delivered values. */
  lemma {:induction false} RuleDecides(p: Probe, r: CompiledRule)
    ensures JudgeRule(p, r).Hit? <==> RuleHits(p, r)
    ensures JudgeRule(p, r).Abort? <==> RuleAborts(p, r)
    ensures JudgeRule(p, r).Miss? <==> RuleMisses(p, r)
    ensures JudgeRule(p, r).Fault? <==> p.values(r).CarrierError?
  {
    if p.values(r).Values? {
      var values := p.values(r).items;
      var i := JudgedUpTo(p, r, values);
      forall k | DecidedBy(p, r, k) ensures k == i {
        OnePlace(p, r, values, i, k);
      }
      assert i < |values| ==> DecidedBy(p, r, i);
    }
  }

  ghost predicate HitsBefore(p: Probe, rules: map<string, CompiledRule>, ids: seq<string>, k: int) {
    0 <= k <= |ids| && forall n :: 0 <= n < k ==> ids[n] in rules && RuleHits(p, rules[ids[n]])
  }

  /** All components hit. */
  ghost predicate AllHit(p: Probe, rules: map<string, CompiledRule>, ids: seq<string>) {
    HitsBefore(p, rules, ids, |ids|)
  }

  /** Some component aborts, and all before it hit. */
  ghost predicate SomeAborts(p: Probe, rules: map<string, CompiledRule>, ids: seq<string>) {
    exists k :: HitsBefore(p, rules, ids, k) && k < |ids| && ids[k] in rules && RuleAborts(p, rules[ids[k]])
  }

  /** Some component misses, and all before it hit. */
  ghost predicate SomeMisses(p: Probe, rules: map<string, CompiledRule>, ids: seq<string>) {
    exists k :: HitsBefore(p, rules, ids, k) && k < |ids| && ids[k] in rules && RuleMisses(p, rules[ids[k]])
  }

  /** The values for some component cannot be extracted, and all before it hit. */
  ghost predicate SomeFaults(p: Probe, rules: map<string, CompiledRule>, ids: seq<string>) {
    exists k :: HitsBefore(p, rules, ids, k) && k < |ids| && ids[k] in rules && p.values(rules[ids[k]]).CarrierError?
  }

  lemma {:induction false} ComponentsUpTo(p: Probe, rules: map<string, CompiledRule>, ids: seq<string>, last: string)
    returns (k: int)
    requires forall n :: 0 <= n < |ids| ==> ids[n] in rules
    ensures HitsBefore(p, rules, ids, k) && (k < |ids| ==> !JudgeRule(p, rules[ids[k]]).Hit?)
    ensures if k < |ids| then JudgeComponents(p, rules, ids, last) == JudgeRule(p, rules[ids[k]])
            else JudgeComponents(p, rules, ids, last).Hit?
    decreases |ids|
  {
    hide RuleHits, JudgeRule;
    if ids == [] {
      k := 0;
    } else {
      RuleDecides(p, rules[ids[0]]);
      var judgement := JudgeRule(p, rules[ids[0]]);
      if judgement.Hit? {
        var n := ComponentsUpTo(p, rules, ids[1..], judgement.ruleId);
        k := n + 1;
        assert forall j :: 1 <= j < |ids| ==> ids[j] == ids[1..][j - 1];
      } else {
        k := 0;
      }
    }
  }

  /** What judging an alternative comes to. */
  lemma {:induction false} ComponentsDecide(p: Probe, rules: map<string, CompiledRule>, ids: seq<string>, last: string)
    requires forall n :: 0 <= n < |ids| ==> ids[n] in rules
    ensures JudgeComponents(p, rules, ids, last).Hit? <==> AllHit(p, rules, ids)
    ensures JudgeComponents(p, rules, ids, last).Abort? <==> SomeAborts(p, rules, ids)
    ensures JudgeComponents(p, rules, ids, last).Miss? <==> SomeMisses(p, rules, ids)
    ensures JudgeComponents(p, rules, ids, last).Fault? <==> SomeFaults(p, rules, ids)
  {
    hide RuleHits, RuleAborts, RuleMisses, JudgeRule, JudgeComponents;
    var k := ComponentsUpTo(p, rules, ids, last);
    if k < |ids| {
      RuleDecides(p, rules[ids[k]]);
      forall n | HitsBefore(p, rules, ids, n) ensures n <= k {
      }
      forall n | HitsBefore(p, rules, ids, n) && n < k
        ensures !RuleAborts(p, rules[ids[n]]) && !RuleMisses(p, rules[ids[n]])
        ensures !p.values(rules[ids[n]]).CarrierError?
      {
        RuleDecides(p, rules[ids[n]]);
      }
    } else {
      forall n | 0 <= n < |ids|
        ensures !RuleAborts(p, rules[ids[n]]) && !RuleMisses(p, rules[ids[n]])
        ensures !p.values(rules[ids[n]]).CarrierError?
      {
        RuleDecides(p, rules[ids[n]]);
      }
    }
  }

  /** The alternative applies, all its components hit, and no applicable one between n and it aborts. */
  ghost predicate FirstHit(p: Probe, w: PreparedWaf, route: RouteBinding, n: int, i: int) {
    && 0 <= n <= i < |w.alternatives| && Applicable(w.alternatives[i], route)
    && AllHit(p, w.rules, w.alternatives[i].componentIds)
    && forall k :: n <= k < i && Applicable(w.alternatives[k], route) ==>
        !SomeAborts(p, w.rules, w.alternatives[k].componentIds)
  }

  ghost predicate SomeFirstHit(p: Probe, w: PreparedWaf, route: RouteBinding, n: int) {
    exists i :: FirstHit(p, w, route, n, i)
  }

  ghost predicate AllMissFrom(p: Probe, w: PreparedWaf, route: RouteBinding, n: int) {
    0 <= n && forall k :: n <= k < |w.alternatives| && Applicable(w.alternatives[k], route) ==>
      SomeMisses(p, w.rules, w.alternatives[k].componentIds)
  }

  lemma {:induction false} AlternativeDecides(p: Probe, w: PreparedWaf, n: nat)
    requires Runnable(w) && n < |w.alternatives|
    ensures NamesRules(w.rules, w.alternatives[n].componentIds)
    ensures var ids := w.alternatives[n].componentIds;
            var judgement := JudgeAlternative(p, w.rules, w.alternatives[n]);
            && (judgement.Hit? <==> AllHit(p, w.rules, ids)) && (judgement.Abort? <==> SomeAborts(p, w.rules, ids))
            && (judgement.Miss? <==> SomeMisses(p, w.rules, ids)) && (judgement.Fault? <==> SomeFaults(p, w.rules, ids))
  {
    ComponentsDecide(p, w.rules, w.alternatives[n].componentIds, "");
  }

  /** One alternative more, in front. */
  lemma {:induction false} FirstHitStep(p: Probe, w: PreparedWaf, route: RouteBinding, n: nat)
    requires n < |w.alternatives|
    ensures var a := w.alternatives[n];
            var hits, aborts := AllHit(p, w.rules, a.componentIds), SomeAborts(p, w.rules, a.componentIds);
            var before := SomeFirstHit(p, w, route, n);
            var after := SomeFirstHit(p, w, route, n + 1);
            && (Applicable(a, route) && hits ==> before)
            && (Applicable(a, route) && aborts && !hits ==> !before)
            && ((Applicable(a, route) ==> !hits && !aborts) ==> (before <==> after))
  {
    hide Applicable, AllHit, SomeAborts;
    var a := w.alternatives[n];
    if Applicable(a, route) && AllHit(p, w.rules, a.componentIds) {
      assert FirstHit(p, w, route, n, n);
    }
    if i :| FirstHit(p, w, route, n, i) && n < i {
      assert FirstHit(p, w, route, n + 1, i);
    }
    if (Applicable(a, route) ==> !SomeAborts(p, w.rules, a.componentIds)) {
      var next := n + 1;
      if SomeFirstHit(p, w, route, next) {
        var i :| FirstHit(p, w, route, next, i);
        assert FirstHit(p, w, route, n, i);
      }
    }
  }

  lemma {:induction false} JudgedFrom(p: Probe, w: PreparedWaf, route: RouteBinding, n: nat, fault: Option<string>)
    requires Runnable(w) && n <= |w.alternatives|
    ensures Judge(p, w, route, n, fault).BlockedBy? <==> SomeFirstHit(p, w, route, n)
    ensures Judge(p, w, route, n, fault).NotBlocked? <==> fault.None? && AllMissFrom(p, w, route, n)
    decreases |w.alternatives| - n
  {
    hide Applicable, AllHit, SomeAborts, SomeMisses, JudgeAlternative, Runnable;
    if n < |w.alternatives| {
      AlternativeDecides(p, w, n);
      FirstHitStep(p, w, route, n);
      JudgedFrom(p, w, route, n + 1, fault);
      var judgement := JudgeAlternative(p, w.rules, w.alternatives[n]);
      if judgement.Fault? {
        JudgedFrom(p, w, route, n + 1, Some(judgement.message));
      }
    }
  }

  /** For every request: it is blocked exactly when some applicable alternative has all components hit and no applicable
      alternative before it aborts, whatever carrier errors there are; it is let through exactly when every applicable
      alternative misses; and otherwise the evaluation fails. */
  lemma {:induction false} EvaluationExactly(p: Probe, w: PreparedWaf, route: RouteBinding)
    requires Runnable(w)
    ensures Judge(p, w, route, 0, None).BlockedBy? <==> SomeFirstHit(p, w, route, 0)
    ensures Judge(p, w, route, 0, None).NotBlocked? <==> AllMissFrom(p, w, route, 0)
  {
    JudgedFrom(p, w, route, 0, None);
  }

  // ----- the Boolean meaning -------------------------------------------------------------------

  /** Some delivered value matches after transformation. */
  ghost predicate RuleMatches(p: Probe, r: CompiledRule) {
    p.values(r).Values? && exists value :: value in p.values(r).items && ValueHits(p, r, value)
  }

  ghost predicate AllMatch(p: Probe, rules: map<string, CompiledRule>, a: Alternative) {
    forall k :: 0 <= k < |a.componentIds| ==> a.componentIds[k] in rules && RuleMatches(p, rules[a.componentIds[k]])
  }

  /** The Boolean meaning of a WAF: some alternative for the route has all its components matching. */
  ghost predicate Matches(p: Probe, w: PreparedWaf, route: RouteBinding) {
    exists n :: 0 <= n < |w.alternatives| && Applicable(w.alternatives[n], route)
        && AllMatch(p, w.rules, w.alternatives[n])
  }

  /** No delivered value fails to be transformed. */
  ghost predicate Transforms(p: Probe, rules: map<string, CompiledRule>) {
    forall id :: id in rules ==> RuleTransforms(p, rules[id])
  }

  ghost predicate RuleTransforms(p: Probe, r: CompiledRule) {
    p.values(r).Values? ==>
      forall value :: value in p.values(r).items ==> p.transform(r.transformations, value).Bytes?
  }

  lemma {:induction false} TransformedHits(p: Probe, r: CompiledRule)
    requires RuleTransforms(p, r)
    ensures RuleHits(p, r) <==> RuleMatches(p, r)
    ensures !RuleAborts(p, r)
  {
    if p.values(r).Values? {
      var values := p.values(r).items;
      var i := JudgedUpTo(p, r, values);
      assert i < |values| ==> values[i] in values && DecidedBy(p, r, i);
    }
  }

  lemma {:induction false} TransformedMatches(p: Probe, rules: map<string, CompiledRule>, a: Alternative)
    requires Transforms(p, rules) && NamesRules(rules, a.componentIds)
    ensures AllHit(p, rules, a.componentIds) <==> AllMatch(p, rules, a)
    ensures !SomeAborts(p, rules, a.componentIds)
  {
    hide RuleHits, RuleMatches, RuleAborts, RuleTransforms;
    forall k | 0 <= k < |a.componentIds|
      ensures RuleHits(p, rules[a.componentIds[k]]) <==> RuleMatches(p, rules[a.componentIds[k]])
      ensures !RuleAborts(p, rules[a.componentIds[k]])
    {
      TransformedHits(p, rules[a.componentIds[k]]);
    }
  }

  ghost predicate SomeAlternativeFaults(p: Probe, w: PreparedWaf, route: RouteBinding) {
    exists n :: 0 <= n < |w.alternatives| && Applicable(w.alternatives[n], route)
                && SomeFaults(p, w.rules, w.alternatives[n].componentIds)
  }

  lemma {:induction false} FaultNamesRule(p: Probe, rules: map<string, CompiledRule>, ids: seq<string>)
    ensures SomeFaults(p, rules, ids) ==> exists id :: id in rules && !p.values(rules[id]).Values?
  {
  }

  /** As long as no delivered value fails to be transformed, a request is blocked exactly when the WAF matches it:
      neither the order of the alternatives nor a carrier error in one of them hides a match in another. It then fails
      only on a carrier error that an applicable alternative meets, when nothing matches. */
  lemma {:induction false} EvaluationIsBoolean(p: Probe, w: PreparedWaf, route: RouteBinding)
    requires Runnable(w) && Transforms(p, w.rules)
    ensures Judge(p, w, route, 0, None).BlockedBy? <==> Matches(p, w, route)
    ensures Judge(p, w, route, 0, None).Failed? ==> !Matches(p, w, route) && SomeAlternativeFaults(p, w, route)
    ensures (forall id :: id in w.rules ==> p.values(w.rules[id]).Values?) ==> !Judge(p, w, route, 0, None).Failed?
  {
    hide Applicable, AllHit, AllMatch, SomeAborts, SomeMisses, SomeFaults, Transforms, Judge;
    EvaluationExactly(p, w, route);
    forall n | 0 <= n < |w.alternatives|
      ensures AllHit(p, w.rules, w.alternatives[n].componentIds) <==> AllMatch(p, w.rules, w.alternatives[n])
      ensures !SomeAborts(p, w.rules, w.alternatives[n].componentIds)
      ensures AllHit(p, w.rules, w.alternatives[n].componentIds)
              || SomeMisses(p, w.rules, w.alternatives[n].componentIds)
              || SomeFaults(p, w.rules, w.alternatives[n].componentIds)
      ensures SomeFaults(p, w.rules, w.alternatives[n].componentIds) ==>
                exists id :: id in w.rules && !p.values(w.rules[id]).Values?
    {
      AlternativeDecides(p, w, n);
      TransformedMatches(p, w.rules, w.alternatives[n]);
      FaultNamesRule(p, w.rules, w.alternatives[n].componentIds);
    }
    if Matches(p, w, route) {
      var n :|
        0 <= n < |w.alternatives| && Applicable(w.alternatives[n], route) && AllMatch(p, w.rules, w.alternatives[n]);
      assert FirstHit(p, w, route, 0, n);
    }
  }

  predicate Passed(p: Probe, w: PreparedWaf, route: RouteBinding, i: nat)
    requires Runnable(w) && i < |w.alternatives|
  {
    assert NamesRules(w.rules, w.alternatives[i].componentIds);
    Applicable(w.alternatives[i], route) ==>
      !JudgeAlternative(p, w.rules, w.alternatives[i]).Hit? && !JudgeAlternative(p, w.rules, w.alternatives[i]).Abort?
  }

  predicate Faulted(p: Probe, w: PreparedWaf, route: RouteBinding, i: nat)
    requires Runnable(w) && i < |w.alternatives|
  {
    assert NamesRules(w.rules, w.alternatives[i].componentIds);
    Applicable(w.alternatives[i], route) && JudgeAlternative(p, w.rules, w.alternatives[i]).Fault?
  }

  /** The first applicable alternative that hits or aborts decides, whatever faults came before it. */
  lemma {:induction false} FirstDecides(p: Probe, w: PreparedWaf, route: RouteBinding, n: nat, fault: Option<string>,
                                        i: nat)
    requires Runnable(w) && n <= i < |w.alternatives| && Applicable(w.alternatives[i], route)
    requires forall k: nat :: n <= k < i ==> Passed(p, w, route, k)
    ensures NamesRules(w.rules, w.alternatives[i].componentIds)
    ensures match JudgeAlternative(p, w.rules, w.alternatives[i])
            case Hit(ruleId) => Judge(p, w, route, n, fault) == BlockedBy(ruleId)
            case Abort(message) => Judge(p, w, route, n, fault) == Failed(message)
            case _ => true
    decreases i - n
  {
    hide RouteApplies;
    assert NamesRules(w.rules, w.alternatives[i].componentIds);
    if n < i {
      assert Passed(p, w, route, n);
      var judgement := JudgeAlternative(p, w.rules, w.alternatives[n]);
      FirstDecides(p, w, route, n + 1, fault, i);
      if judgement.Fault? {
        FirstDecides(p, w, route, n + 1, Some(judgement.message), i);
      }
    }
  }

  /** When no applicable alternative hits or aborts, the first fault surfaces; without one the request is not blocked.
      */
  lemma {:induction false} FaultSurfaces(p: Probe, w: PreparedWaf, route: RouteBinding, n: nat, fault: Option<string>)
    requires Runnable(w) && n <= |w.alternatives|
    requires forall k: nat :: n <= k < |w.alternatives| ==> Passed(p, w, route, k)
    ensures fault.Some? ==> Judge(p, w, route, n, fault) == Failed(fault.value)
    ensures fault.None? ==>
              (Judge(p, w, route, n, fault).Failed?
               <==> exists k: nat :: n <= k < |w.alternatives| && Faulted(p, w, route, k))
    ensures !Judge(p, w, route, n, fault).BlockedBy?
    decreases |w.alternatives| - n
  {
    hide RouteApplies;
    if n < |w.alternatives| {
      assert Passed(p, w, route, n);
      assert NamesRules(w.rules, w.alternatives[n].componentIds);
      var judgement := JudgeAlternative(p, w.rules, w.alternatives[n]);
      FaultSurfaces(p, w, route, n + 1, fault);
      if judgement.Fault? {
        FaultSurfaces(p, w, route, n + 1, Some(judgement.message));
        if Applicable(w.alternatives[n], route) {
          assert Faulted(p, w, route, n);
        }
      }
    }
  }

  lemma {:induction false} HitNamesRule(p: Probe, r: CompiledRule, values: seq<string>)
    ensures JudgeValues(p, r, values).Hit? ==> JudgeValues(p, r, values).ruleId == r.ruleId
    decreases |values|
  {
    if values != [] {
      HitNamesRule(p, r, values[1..]);
    }
  }

  lemma {:induction false} HitNamesLastRule(p: Probe, rules: map<string, CompiledRule>, ids: seq<string>, last: string)
    requires |ids| > 0 && forall k :: 0 <= k < |ids| ==> ids[k] in rules
    ensures JudgeComponents(p, rules, ids, last).Hit? ==>
              JudgeComponents(p, rules, ids, last).ruleId == rules[ids[|ids| - 1]].ruleId
    decreases |ids|
  {
    var r := rules[ids[0]];
    if p.values(r).Values? {
      HitNamesRule(p, r, p.values(r).items);
    }
    if |ids| > 1 {
      HitNamesLastRule(p, rules, ids[1..], r.ruleId);
      assert ids[1..][|ids| - 2] == ids[|ids| - 1];
    } else {
      assert ids[1..] == [];
    }
  }

  /** The first applicable alternative with all components hit, none aborting before it, and its last rule. */
  ghost predicate NamedBy(p: Probe, w: PreparedWaf, route: RouteBinding, n: int, i: int, ruleId: string) {
    && FirstHit(p, w, route, n, i)
    && (forall k :: n <= k < i && Applicable(w.alternatives[k], route) ==>
          !AllHit(p, w.rules, w.alternatives[k].componentIds))
    && var ids := w.alternatives[i].componentIds;
    |ids| > 0 && ids[|ids| - 1] in w.rules && ruleId == w.rules[ids[|ids| - 1]].ruleId
  }

  ghost predicate SomeNamed(p: Probe, w: PreparedWaf, route: RouteBinding, n: int, ruleId: string) {
    exists i :: NamedBy(p, w, route, n, i, ruleId)
  }

  /** A request that is blocked is blocked in the name of the last rule of the first applicable alternative that hits.
      */
  lemma {:induction false} BlockedNamesItsRule(p: Probe, w: PreparedWaf, route: RouteBinding, n: nat,
                                               fault: Option<string>)
    requires Runnable(w) && n <= |w.alternatives|
    ensures Judge(p, w, route, n, fault).BlockedBy? ==>
              SomeNamed(p, w, route, n, Judge(p, w, route, n, fault).ruleId)
    decreases |w.alternatives| - n
  {
    hide Applicable, JudgeRule, AllHit, SomeAborts;
    if n < |w.alternatives| && Judge(p, w, route, n, fault).BlockedBy? {
      var a := w.alternatives[n];
      AlternativeDecides(p, w, n);
      HitNamesLastRule(p, w.rules, a.componentIds, "");
      var judgement := JudgeAlternative(p, w.rules, a);
      hide JudgeAlternative;
      if Applicable(a, route) && judgement.Hit? {
        assert NamedBy(p, w, route, n, n, judgement.ruleId);
      } else {
        var kept := if Applicable(a, route) && judgement.Fault? && fault.None? then Some(judgement.message) else fault;
        var next := n + 1;
        BlockedNamesItsRule(p, w, route, next, kept);
        var ruleId := Judge(p, w, route, next, kept).ruleId;
        var i :| NamedBy(p, w, route, next, i, ruleId);
        assert NamedBy(p, w, route, n, i, ruleId);
      }
    }
  }
}
