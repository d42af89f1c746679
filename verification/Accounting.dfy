/**
 The obligation loop of executeSharedContractV2 and the validator validateSharedOutcomeAccounting, both in
 api/shared_contract_v2.go.
 */
module Accounting {
  import opened Collections
  import opened Wrappers
  import opened Refs
  import opened Coverage
  import opened Semantics
  import opened Completeness

  /** What running one case comes to. */
  datatype Outcome = Blocked | NotBlocked | SafetyStop | Unsupported

  /** A disposition as it stands in a result; the validator also meets names the executor never writes. */
  datatype Disposition = Disposed(outcome: Outcome) | Invalid(name: string)

  datatype CaseResult = CaseResult(inputId: string, disposition: Disposition)

  datatype ObligationResult = ObligationResult(obligationId: string, cases: seq<CaseResult>)

  datatype Accounts = Accounts(
    requiredObligations: int, accountedObligations: int, unaccountedObligations: int,
    sourceMembers: int, representedMembers: int, unsupportedMembers: int, unaccountedMembers: int,
    requiredWork: int, disposedWork: int, unaccountedWork: int)

  function CaseKey(c: CaseResult): string { c.inputId }

  function ResultKey(r: ObligationResult): string { r.obligationId }

  // ----- what the validator accepts ------------------------------------------------------------

  /** The inputs each obligation requires; a repeated obligation replaces the earlier one. */
  function Expected(obligations: seq<Obligation>): (e: map<string, set<string>>)
    ensures forall id :: id in e <==> id in Ids(obligations, ObligationKey)
    decreases |obligations|
  {
    if obligations == [] then map[]
    else
      var last := obligations[|obligations| - 1];
      assert Ids(obligations, ObligationKey)
             == Ids(obligations[..|obligations| - 1], ObligationKey) + [last.obligationId];
      Expected(obligations[..|obligations| - 1])[last.obligationId := IdSet(last.requiredInputRefs)]
  }

  /** The required (obligation, input) pairs. */
  function Pairs(e: map<string, set<string>>): set<(string, string)> {
    set o, i | o in e && i in e[o] :: (o, i)
  }

  /** Exactly the required inputs, once each, each with a valid disposition. */
  ghost predicate CasesAccount(inputs: set<string>, cases: seq<CaseResult>) {
    && Lists(Ids(cases, CaseKey), inputs)
    && forall i :: 0 <= i < |cases| ==> cases[i].disposition.Disposed?
  }

  function TotalCases(results: seq<ObligationResult>): nat
    decreases |results|
  {
    if results == [] then 0 else TotalCases(results[..|results| - 1]) + |results[|results| - 1].cases|
  }

  ghost predicate ResultsAccount(e: map<string, set<string>>, results: seq<ObligationResult>) {
    && Distinct(Ids(results, ResultKey))
    && forall i :: 0 <= i < |results| ==>
         results[i].obligationId in e && CasesAccount(e[results[i].obligationId], results[i].cases)
  }

  predicate CountsAgree(e: map<string, set<string>>, s: Semantics, results: seq<ObligationResult>, a: Accounts) {
    && |results| == |e|
    && a.requiredObligations == |e| && a.accountedObligations == |results| && a.unaccountedObligations == 0
    && a.sourceMembers == |s.members| && a.representedMembers == |RepresentedMembers(s)|
    && a.unsupportedMembers == |UnsupportedMembers(s)| && a.unaccountedMembers == 0
    && a.requiredWork == |Pairs(e)| && a.disposedWork == TotalCases(results) && a.unaccountedWork == 0
    && RepresentedMembers(s) !! UnsupportedMembers(s)
    && |RepresentedMembers(s)| + |UnsupportedMembers(s)| == a.sourceMembers
  }

  ghost predicate DistinctRequirements(obligations: seq<Obligation>) {
    forall i :: 0 <= i < |obligations| ==> Distinct(RefIds(obligations[i].requiredInputRefs))
  }

  ghost predicate Accounted(s: Semantics, results: seq<ObligationResult>, a: Accounts) {
    var e := Expected(s.obligations);
    && DistinctRequirements(s.obligations)
    && ResultsAccount(e, results)
    && CountsAgree(e, s, results, a)
  }

  // ----- what the executor builds --------------------------------------------------------------

  /** The case of the j-th required input of the i-th obligation: the input is looked up by its reference. */
  function CaseOf(inputs: map<string, TestInput>, ref: TypedRef, outcome: Outcome): CaseResult {
    CaseResult(if ref.id in inputs then inputs[ref.id].inputId else "", Disposed(outcome))
  }

  function ResultOf(inputs: map<string, TestInput>, o: Obligation, outcomes: nat -> Outcome): (r: ObligationResult)
    ensures |r.cases| == |o.requiredInputRefs|
    ensures forall j :: 0 <= j < |r.cases| ==> r.cases[j] == CaseOf(inputs, o.requiredInputRefs[j], outcomes(j))
  {
    ObligationResult(o.obligationId, seq(|o.requiredInputRefs|,
      j requires 0 <= j < |o.requiredInputRefs| => CaseOf(inputs, o.requiredInputRefs[j], outcomes(j))))
  }

  /** outcomes(i)(j) is whatever running the j-th case of the i-th obligation comes to. */
  function ResultsOf(inputs: map<string, TestInput>, obligations: seq<Obligation>, outcomes: nat -> nat -> Outcome)
    : (results: seq<ObligationResult>)
    ensures |results| == |obligations|
    ensures forall i :: 0 <= i < |results| ==> results[i] == ResultOf(inputs, obligations[i], outcomes(i))
  {
    seq(|obligations|, i requires 0 <= i < |obligations| => ResultOf(inputs, obligations[i], outcomes(i)))
  }

  function AccountsOf(s: Semantics, results: seq<ObligationResult>): Accounts {
    Accounts(|s.obligations|, |results|, 0, |s.members|, |RepresentedMembers(s)|, |UnsupportedMembers(s)|, 0,
             TotalCases(results), TotalCases(results), 0)
  }

  // ----- after acceptance the malfunction branch is dead ---------------------------------------

  lemma {:induction false} IndexKeys<T>(items: seq<T>, key: T -> string)
    ensures forall k :: k in Index(items, key) ==> key(Index(items, key)[k]) == k
    decreases |items|
  {
    if items != [] {
      IndexKeys(items[..|items| - 1], key);
    }
  }

  lemma {:induction false} ExpectedSize(obligations: seq<Obligation>)
    requires Distinct(Ids(obligations, ObligationKey))
    ensures |Expected(obligations)| == |obligations|
    decreases |obligations|
  {
    if obligations != [] {
      InitDistinct(obligations);
      ExpectedSize(obligations[..|obligations| - 1]);
    }
  }

  lemma {:induction false} ExpectedFinds(obligations: seq<Obligation>)
    requires Distinct(Ids(obligations, ObligationKey))
    ensures |Expected(obligations)| == |obligations|
    ensures forall i :: 0 <= i < |obligations| ==>
              && obligations[i].obligationId in Expected(obligations)
              && Expected(obligations)[obligations[i].obligationId] == IdSet(obligations[i].requiredInputRefs)
  {
    hide Expected, IdSet;
    ExpectedSize(obligations);
    forall i | 0 <= i < |obligations|
      ensures obligations[i].obligationId in Expected(obligations)
      ensures Expected(obligations)[obligations[i].obligationId] == IdSet(obligations[i].requiredInputRefs)
    {
      ExpectedFindsOne(obligations, i);
    }
  }

  lemma {:induction false} ExpectedFindsOne(obligations: seq<Obligation>, i: nat)
    requires i < |obligations| && Distinct(Ids(obligations, ObligationKey))
    ensures obligations[i].obligationId in Expected(obligations)
    ensures Expected(obligations)[obligations[i].obligationId] == IdSet(obligations[i].requiredInputRefs)
    decreases |obligations|
  {
    hide IdSet;
    if i < |obligations| - 1 {
      InitDistinct(obligations);
      ExpectedFindsOne(obligations[..|obligations| - 1], i);
    }
  }

  lemma {:induction false} InitDistinct(obligations: seq<Obligation>)
    requires obligations != [] && Distinct(Ids(obligations, ObligationKey))
    ensures var init := obligations[..|obligations| - 1];
            && Distinct(Ids(init, ObligationKey))
            && forall i :: 0 <= i < |init| ==> init[i].obligationId != obligations[|obligations| - 1].obligationId
  {
    var init := obligations[..|obligations| - 1];
    assert forall i :: 0 <= i < |init| ==> Ids(init, ObligationKey)[i] == Ids(obligations, ObligationKey)[i];
    forall i | 0 <= i < |init| ensures init[i].obligationId != obligations[|init|].obligationId {
      assert Ids(obligations, ObligationKey)[i] != Ids(obligations, ObligationKey)[|init|];
    }
  }

  /** One more obligation adds as many pairs as it requires inputs. */
  lemma {:induction false} PairsOfOne(o: string, inputs: set<string>)
    ensures |set i | i in inputs :: (o, i)| == |inputs|
    decreases inputs
  {
    if inputs != {} {
      var x :| x in inputs;
      PairsOfOne(o, inputs - {x});
      assert (set i | i in inputs :: (o, i)) == (set i | i in inputs - {x} :: (o, i)) + {(o, x)};
    }
  }

  lemma {:induction false} PairsGrow(e: map<string, set<string>>, o: string, inputs: set<string>)
    requires o !in e
    ensures |Pairs(e[o := inputs])| == |Pairs(e)| + |inputs|
  {
    var added := set i | i in inputs :: (o, i);
    PairsOfOne(o, inputs);
    assert Pairs(e[o := inputs]) == Pairs(e) + added;
    assert Pairs(e) !! added;
  }

  function TotalRequired(obligations: seq<Obligation>): nat
    decreases |obligations|
  {
    if obligations == [] then 0
    else TotalRequired(obligations[..|obligations| - 1]) + |obligations[|obligations| - 1].requiredInputRefs|
  }

  lemma {:induction false} PairsAreCounted(obligations: seq<Obligation>)
    requires Distinct(Ids(obligations, ObligationKey)) && DistinctRequirements(obligations)
    ensures |Pairs(Expected(obligations))| == TotalRequired(obligations)
    decreases |obligations|
  {
    if obligations == [] {
      assert Pairs(map[]) == {};
    } else {
      var init, last := obligations[..|obligations| - 1], obligations[|obligations| - 1];
      InitDistinct(obligations);
      PairsAreCounted(init);
      PairsGrow(Expected(init), last.obligationId, IdSet(last.requiredInputRefs));
      DistinctSize(RefIds(last.requiredInputRefs));
      assert (set x | x in RefIds(last.requiredInputRefs)) == IdSet(last.requiredInputRefs);
    }
  }

  lemma {:induction false} CasesAreCounted(inputs: map<string, TestInput>, obligations: seq<Obligation>,
                                           outcomes: nat -> nat -> Outcome)
    ensures TotalCases(ResultsOf(inputs, obligations, outcomes)) == TotalRequired(obligations)
    decreases |obligations|
  {
    if obligations != [] {
      var n := |obligations| - 1;
      CasesAreCounted(inputs, obligations[..n], outcomes);
      assert ResultsOf(inputs, obligations, outcomes)[..n] == ResultsOf(inputs, obligations[..n], outcomes);
    }
  }

  /** What acceptance says about the obligations. */
  lemma {:induction false} AcceptedObligations(cg: Document, s: Semantics)
    requires Complete(cg, s)
    ensures Distinct(Ids(s.obligations, ObligationKey)) && DistinctRequirements(s.obligations)
    ensures forall i :: 0 <= i < |s.obligations| ==>
            IdSet(s.obligations[i].requiredInputRefs) <= Index(s.testInputs, InputKey).Keys
  {
    ObligationsMatchCoverage(cg, s);
    hide WorkKeys, MemberAgrees, ArtifactAgrees, InputAgrees, ObligationAgrees, DimensionAgrees, Counted, Claims;
    hide Identities, SameIdentities, Index, InOrder, GraphOf;
    forall i | 0 <= i < |s.obligations|
      ensures Distinct(RefIds(s.obligations[i].requiredInputRefs))
      ensures IdSet(s.obligations[i].requiredInputRefs) <= Index(s.testInputs, InputKey).Keys
    {
      assert RequiresItsCoverage(s, s.obligations[i]);
    }
  }

  lemma {:induction false} ResultAccounts(inputs: map<string, TestInput>, o: Obligation, outcomes: nat -> Outcome)
    requires Distinct(RefIds(o.requiredInputRefs)) && IdSet(o.requiredInputRefs) <= inputs.Keys
    requires forall k :: k in inputs ==> inputs[k].inputId == k
    ensures CasesAccount(IdSet(o.requiredInputRefs), ResultOf(inputs, o, outcomes).cases)
  {
    var cases := ResultOf(inputs, o, outcomes).cases;
    forall j | 0 <= j < |cases| ensures cases[j].inputId == o.requiredInputRefs[j].id {
      assert o.requiredInputRefs[j].id in IdSet(o.requiredInputRefs);
    }
    assert Ids(cases, CaseKey) == RefIds(o.requiredInputRefs);
    ListsMeans(RefIds(o.requiredInputRefs), IdSet(o.requiredInputRefs));
    assert (set x | x in RefIds(o.requiredInputRefs)) == IdSet(o.requiredInputRefs);
  }

  lemma {:induction false} MembersAreCounted(cg: Document, s: Semantics)
    requires Complete(cg, s)
    ensures RepresentedMembers(s) !! UnsupportedMembers(s)
    ensures |RepresentedMembers(s)| + |UnsupportedMembers(s)| == |s.members|
  {
    hide WorkKeys, MemberAgrees, ArtifactAgrees, InputAgrees, ObligationAgrees, DimensionAgrees, Claims;
    hide SameIdentities, RepresentedMembers, UnsupportedMembers;
    IndexFinds(s.members, MemberKey);
  }

  lemma {:induction false} BuiltResultsAccount(inputs: map<string, TestInput>, obligations: seq<Obligation>,
                                               outcomes: nat -> nat -> Outcome)
    requires Distinct(Ids(obligations, ObligationKey)) && DistinctRequirements(obligations)
    requires forall i :: 0 <= i < |obligations| ==> IdSet(obligations[i].requiredInputRefs) <= inputs.Keys
    requires forall k :: k in inputs ==> inputs[k].inputId == k
    ensures ResultsAccount(Expected(obligations), ResultsOf(inputs, obligations, outcomes))
  {
    hide CasesAccount, ResultsOf, IdSet, DistinctRequirements, Expected, Ids, Distinct;
    var results := ResultsOf(inputs, obligations, outcomes);
    forall i | 0 <= i < |results|
      ensures results[i].obligationId in Expected(obligations)
      ensures CasesAccount(Expected(obligations)[results[i].obligationId], results[i].cases)
    {
      BuiltResultAccounts(inputs, obligations, outcomes, i);
    }
    NamesKept(inputs, obligations, outcomes);
  }

  lemma {:induction false} NamesKept(inputs: map<string, TestInput>, obligations: seq<Obligation>,
                                     outcomes: nat -> nat -> Outcome)
    ensures Ids(ResultsOf(inputs, obligations, outcomes), ResultKey) == Ids(obligations, ObligationKey)
  {
  }

  lemma {:induction false} BuiltResultAccounts(inputs: map<string, TestInput>, obligations: seq<Obligation>,
                                               outcomes: nat -> nat -> Outcome, i: nat)
    requires Distinct(Ids(obligations, ObligationKey)) && DistinctRequirements(obligations) && i < |obligations|
    requires IdSet(obligations[i].requiredInputRefs) <= inputs.Keys
    requires forall k :: k in inputs ==> inputs[k].inputId == k
    ensures var r := ResultsOf(inputs, obligations, outcomes)[i];
            && r.obligationId == obligations[i].obligationId && r.obligationId in Expected(obligations)
            && CasesAccount(Expected(obligations)[r.obligationId], r.cases)
  {
    hide CasesAccount, Expected, ResultsOf, Ids, Distinct, IdSet;
    ExpectedFinds(obligations);
    ResultAccounts(inputs, obligations[i], outcomes(i));
  }

  /** For everything the completeness check accepts, and whatever the cases come to, the results and counts that the
      executor builds pass the accounting validator: its malfunction branch cannot be reached. */
  lemma {:induction false} AcceptedIsAccounted(cg: Document, s: Semantics, outcomes: nat -> nat -> Outcome)
    requires Complete(cg, s)
    ensures var results := ResultsOf(Index(s.testInputs, InputKey), s.obligations, outcomes);
            Accounted(s, results, AccountsOf(s, results))
  {
    hide Complete, ResultsAccount, RepresentedMembers, UnsupportedMembers, Pairs, DistinctRequirements, Distinct;
    var inputs := Index(s.testInputs, InputKey);
    AcceptedObligations(cg, s);
    MembersAreCounted(cg, s);
    IndexKeys(s.testInputs, InputKey);
    BuiltResultsAccount(inputs, s.obligations, outcomes);
    ExpectedFinds(s.obligations);
    PairsAreCounted(s.obligations);
    CasesAreCounted(inputs, s.obligations, outcomes);
  }

  // ----- and what the validator accepts is complete --------------------------------------------

  ghost predicate Disposes(results: seq<ObligationResult>, o: string, input: string, i: int, j: int) {
    0 <= i < |results| && 0 <= j < |results[i].cases| && results[i].obligationId == o
        && results[i].cases[j].inputId == input
  }

  ghost predicate HasCase(results: seq<ObligationResult>, o: string, input: string) {
    exists i, j :: Disposes(results, o, input, i, j)
  }

  lemma {:induction false} ResultFor(e: map<string, set<string>>, results: seq<ObligationResult>, o: string)
    returns (i: nat)
    requires ResultsAccount(e, results) && |results| == |e| && o in e
    ensures i < |results| && results[i].obligationId == o
  {
    var ids := Ids(results, ResultKey);
    DistinctSize(ids);
    var named := set x | x in ids;
    assert named <= e.Keys;
    SubsetSize(named, e.Keys);
    assert o in named;
    i :| 0 <= i < |ids| && ids[i] == o;
  }

  /** In accounted results every required (obligation, input) pair is disposed by exactly one case, validly, and every
      case disposes a required pair. */
  lemma {:induction false} AccountedIsExact(s: Semantics, results: seq<ObligationResult>, a: Accounts, o: string,
                                            input: string)
    requires Accounted(s, results, a)
    ensures (o, input) in Pairs(Expected(s.obligations)) <==> HasCase(results, o, input)
    ensures forall i, j :: Disposes(results, o, input, i, j) ==> results[i].cases[j].disposition.Disposed?
    ensures forall i, j, k, l :: Disposes(results, o, input, i, j) && Disposes(results, o, input, k, l) ==>
              i == k && j == l
  {
    hide CountsAgree, DistinctRequirements;
    var e := Expected(s.obligations);
    assert |results| == |e| by { CountsAgreeOnResults(e, s, results, a); }
    forall i, j | Disposes(results, o, input, i, j)
      ensures (o, input) in Pairs(e) && results[i].cases[j].disposition.Disposed?
    {
      var ids := Ids(results[i].cases, CaseKey);
      ListsMeans(ids, e[o]);
      assert ids[j] in (set x | x in ids);
    }
    if (o, input) in Pairs(e) {
      var i := ResultFor(e, results, o);
      var ids := Ids(results[i].cases, CaseKey);
      ListsMeans(ids, e[o]);
      assert input in (set x | x in ids);
      var j :| 0 <= j < |ids| && ids[j] == input;
      assert Disposes(results, o, input, i, j);
    }
    forall i, j, k, l | Disposes(results, o, input, i, j) && Disposes(results, o, input, k, l)
      ensures i == k && j == l {
      OnlyOneDisposes(e, results, o, input, i, j, k, l);
    }
  }

  lemma {:induction false} CountsAgreeOnResults(e: map<string, set<string>>, s: Semantics,
                                                results: seq<ObligationResult>, a: Accounts)
    requires CountsAgree(e, s, results, a)
    ensures |results| == |e|
  {
  }

  lemma {:induction false} OnlyOneDisposes(e: map<string, set<string>>, results: seq<ObligationResult>, o: string,
                                           input: string,
                        i: int, j: int, k: int, l: int)
    requires ResultsAccount(e, results) && Disposes(results, o, input, i, j) && Disposes(results, o, input, k, l)
    ensures i == k && j == l
  {
    var names := Ids(results, ResultKey);
    assert names[i] == names[k];
    var ids := Ids(results[i].cases, CaseKey);
    ListsMeans(ids, e[o]);
    assert ids[j] == ids[l];
  }

  // ----- the validator -------------------------------------------------------------------------

  /** The loop over the inputs one obligation requires. */
  method CollectInputs(refs: seq<TypedRef>) returns (inputs: Option<set<string>>)
    ensures inputs.Some? <==> Distinct(RefIds(refs))
    ensures inputs.Some? ==> inputs.value == IdSet(refs)
  {
    var seen: set<string> := {};
    for j := 0 to |refs|
      invariant Distinct(RefIds(refs)[..j])
      invariant seen == set k | 0 <= k < j :: refs[k].id
    {
      if refs[j].id in seen {
        ghost var k :| 0 <= k < j && refs[k].id == refs[j].id;
        assert RefIds(refs)[k] == RefIds(refs)[j];
        return None;
      }
      seen := seen + {refs[j].id};
    }
    assert RefIds(refs)[..|refs|] == RefIds(refs);
    return Some(seen);
  }

  /** The loop that collects what is expected; it rejects an obligation that requires an input twice. */
  method CollectExpected(obligations: seq<Obligation>) returns (e: Option<map<string, set<string>>>)
    ensures e.Some? <==> DistinctRequirements(obligations)
    ensures e.Some? ==> e.value == Expected(obligations)
  {
    var expected: map<string, set<string>> := map[];
    for i := 0 to |obligations|
      invariant forall k :: 0 <= k < i ==> Distinct(RefIds(obligations[k].requiredInputRefs))
      invariant expected == Expected(obligations[..i])
    {
      assert obligations[..i + 1][..i] == obligations[..i];
      var inputs := CollectInputs(obligations[i].requiredInputRefs);
      if inputs.None? {
        return None;
      }
      expected := expected[obligations[i].obligationId := inputs.value];
    }
    assert obligations[..|obligations|] == obligations;
    return Some(expected);
  }

  /** The loop over the cases of one result. */
  method ValidateCases(inputs: set<string>, cases: seq<CaseResult>) returns (ok: bool)
    ensures ok <==> CasesAccount(inputs, cases)
  {
    var seenInputs: set<string> := {};
    ghost var ids := Ids(cases, CaseKey);
    ListsMeans(ids, inputs);
    for j := 0 to |cases|
      invariant seenInputs == set k | 0 <= k < j :: ids[k]
      invariant seenInputs <= inputs && Distinct(ids[..j])
      invariant forall k :: 0 <= k < j ==> cases[k].disposition.Disposed?
    {
      var item := cases[j];
      assert ids[j] == item.inputId && ids[j] in (set x | x in ids);
      if item.inputId !in inputs || item.inputId in seenInputs {
        return false;
      }
      if item.disposition.Invalid? {
        return false;
      }
      seenInputs := seenInputs + {item.inputId};
    }
    assert ids[..|cases|] == ids;
    assert seenInputs == set x | x in ids;
    SubsetSize(seenInputs, inputs);
    ok := |seenInputs| == |inputs|;
  }

  /** The loop over the results. */
  method ValidateResults(e: map<string, set<string>>, results: seq<ObligationResult>) returns (ok: bool, disposed: nat)
    ensures ok <==> ResultsAccount(e, results)
    ensures ok ==> disposed == TotalCases(results)
  {
    hide CasesAccount;
    var seenObligations: set<string> := {};
    ghost var ids := Ids(results, ResultKey);
    disposed := 0;
    for i := 0 to |results|
      invariant seenObligations == set k | 0 <= k < i :: ids[k]
      invariant Distinct(ids[..i]) && disposed == TotalCases(results[..i])
      invariant forall k :: 0 <= k < i ==>
                  results[k].obligationId in e && CasesAccount(e[results[k].obligationId], results[k].cases)
    {
      assert results[..i + 1][..i] == results[..i];
      var result := results[i];
      assert ids[i] == result.obligationId;
      if result.obligationId !in e || result.obligationId in seenObligations {
        return false, 0;
      }
      seenObligations := seenObligations + {result.obligationId};
      var accounted := ValidateCases(e[result.obligationId], result.cases);
      if !accounted {
        return false, 0;
      }
      disposed := disposed + |result.cases|;
    }
    assert ids[..|results|] == ids && results[..|results|] == results;
    ok := true;
  }

  /** The sum over the expected inputs, in whatever order the map is iterated: the number of required pairs. */
  method SumRequired(e: map<string, set<string>>) returns (work: nat)
    ensures work == |Pairs(e)|
  {
    work := 0;
    var rest := e.Keys;
    ghost var done: map<string, set<string>> := map[];
    assert Pairs(done) == {};
    while rest != {}
      invariant rest <= e.Keys && done == map o | o in e && o !in rest :: e[o]
      invariant work == |Pairs(done)|
      decreases rest
    {
      var o :| o in rest;
      rest := rest - {o};
      work := work + |e[o]|;
      PairsGrow(done, o, e[o]);
      done := done[o := e[o]];
    }
    assert done == e;
  }

  /** The two loops that collect the represented and the unsupported source members. */
  method CollectMembers(s: Semantics) returns (represented: set<string>, unsupported: set<string>)
    ensures represented == RepresentedMembers(s) && unsupported == UnsupportedMembers(s)
  {
    represented, unsupported := {}, {};
    for i := 0 to |s.testInputs|
      invariant represented == UnionOver(s.testInputs[..i], InputMembers)
    {
      assert s.testInputs[..i + 1][..i] == s.testInputs[..i];
      represented := represented + IdSet(s.testInputs[i].sourceMemberRefs);
    }
    assert s.testInputs[..|s.testInputs|] == s.testInputs;
    for i := 0 to |s.unsupportedDimensions|
      invariant unsupported == UnionOver(s.unsupportedDimensions[..i], DimensionMembers)
    {
      assert s.unsupportedDimensions[..i + 1][..i] == s.unsupportedDimensions[..i];
      unsupported := unsupported + IdSet(s.unsupportedDimensions[i].sourceMemberRefs);
    }
    assert s.unsupportedDimensions[..|s.unsupportedDimensions|] == s.unsupportedDimensions;
  }

  /** validateSharedOutcomeAccounting. */
  method ValidateAccounting(s: Semantics, results: seq<ObligationResult>, a: Accounts) returns (ok: bool)
    ensures ok <==> Accounted(s, results, a)
  {
    hide ResultsAccount, DistinctRequirements, Pairs, RepresentedMembers, UnsupportedMembers, Expected;
    var expected := CollectExpected(s.obligations);
    if expected.None? {
      return false;
    }
    var disposed;
    ok, disposed := ValidateResults(expected.value, results);
    if !ok {
      return;
    }
    var represented, unsupported := CollectMembers(s);
    var requiredWork := SumRequired(expected.value);
    // Distinct results that are all expected are as many as are expected exactly when none is missing.
    ok := && |results| == |expected.value|
          && a.requiredObligations == |expected.value| && a.accountedObligations == |results|
          && a.unaccountedObligations == 0
          && a.sourceMembers == |s.members| && a.representedMembers == |represented|
          && a.unsupportedMembers == |unsupported| && a.unaccountedMembers == 0
          && a.requiredWork == requiredWork && a.disposedWork == disposed && a.unaccountedWork == 0
          && represented !! unsupported && |represented| + |unsupported| == a.sourceMembers;
  }

  // ----- the executor --------------------------------------------------------------------------

  datatype Tally = Tally(blocked: nat, notBlocked: nat, safety: nat, unsupported: nat)

  function Count(t: Tally, outcome: Outcome): Tally {
    match outcome
    case Blocked => t.(blocked := t.blocked + 1)
    case NotBlocked => t.(notBlocked := t.notBlocked + 1)
    case SafetyStop => t.(safety := t.safety + 1)
    case Unsupported => t.(unsupported := t.unsupported + 1)
  }

  datatype State = BlockedState | NotBlockedState | CouldNotTest | Malfunction

  /** Some case of the results came to this outcome. */
  ghost predicate Occurs(results: seq<ObligationResult>, outcome: Outcome) {
    exists i, j :: 0 <= i < |results| && 0 <= j < |results[i].cases|
        && results[i].cases[j].disposition == Disposed(outcome)
  }

  /** The counters say which outcomes occur and how many cases there are. */
  ghost predicate Tallies(t: Tally, results: seq<ObligationResult>) {
    && (t.blocked > 0 <==> Occurs(results, Blocked)) && (t.notBlocked > 0 <==> Occurs(results, NotBlocked))
    && (t.safety > 0 <==> Occurs(results, SafetyStop)) && (t.unsupported > 0 <==> Occurs(results, Unsupported))
    && t.blocked + t.notBlocked + t.safety + t.unsupported == TotalCases(results)
  }

  /** Every case was blocked. */
  ghost predicate AllBlocked(results: seq<ObligationResult>) {
    forall i, j :: 0 <= i < |results| && 0 <= j < |results[i].cases| ==>
        results[i].cases[j].disposition == Disposed(Blocked)
  }

  lemma {:induction false} OneMoreCase(results: seq<ObligationResult>, o: string, cases: seq<CaseResult>,
                                       c: CaseResult, outcome: Outcome)
    requires c.disposition.Disposed?
    ensures var before := results + [ObligationResult(o, cases)];
            var after := results + [ObligationResult(o, cases + [c])];
            && (Occurs(after, outcome) <==> Occurs(before, outcome) || c.disposition.outcome == outcome)
            && TotalCases(after) == TotalCases(before) + 1
  {
    var before := results + [ObligationResult(o, cases)];
    var after := results + [ObligationResult(o, cases + [c])];
    var n := |results|;
    assert after[..n] == results && before[..n] == results;
    if Occurs(before, outcome) {
      var i, j :| 0 <= i < |before| && 0 <= j < |before[i].cases|
          && before[i].cases[j].disposition == Disposed(outcome);
      assert after[i].cases[j] == before[i].cases[j];
    }
    if c.disposition.outcome == outcome {
      assert after[n].cases[|cases|].disposition == Disposed(outcome);
    }
    if Occurs(after, outcome) {
      var i, j :| 0 <= i < |after| && 0 <= j < |after[i].cases| && after[i].cases[j].disposition == Disposed(outcome);
      if i < n || j < |cases| {
        assert before[i].cases[j] == after[i].cases[j];
      }
    }
  }

  lemma {:induction false} NoCaseYet(results: seq<ObligationResult>, o: string, outcome: Outcome)
    ensures Occurs(results + [ObligationResult(o, [])], outcome) <==> Occurs(results, outcome)
    ensures TotalCases(results + [ObligationResult(o, [])]) == TotalCases(results)
  {
    var more := results + [ObligationResult(o, [])];
    assert more[..|results|] == results;
    if Occurs(results, outcome) {
      var i, j :| 0 <= i < |results| && 0 <= j < |results[i].cases|
          && results[i].cases[j].disposition == Disposed(outcome);
      assert more[i].cases[j] == results[i].cases[j];
    }
  }

  lemma {:induction false} TallyOneMore(t: Tally, results: seq<ObligationResult>, o: string, cases: seq<CaseResult>,
                                        c: CaseResult)
    requires c.disposition.Disposed? && Tallies(t, results + [ObligationResult(o, cases)])
    ensures Tallies(Count(t, c.disposition.outcome), results + [ObligationResult(o, cases + [c])])
  {
    hide Occurs, TotalCases;
    OneMoreCase(results, o, cases, c, Blocked);
    OneMoreCase(results, o, cases, c, NotBlocked);
    OneMoreCase(results, o, cases, c, SafetyStop);
    OneMoreCase(results, o, cases, c, Unsupported);
  }

  lemma {:induction false} TallyNoneYet(t: Tally, results: seq<ObligationResult>, o: string)
    requires Tallies(t, results)
    ensures Tallies(t, results + [ObligationResult(o, [])])
  {
    hide Occurs, TotalCases;
    NoCaseYet(results, o, Blocked);
    NoCaseYet(results, o, NotBlocked);
    NoCaseYet(results, o, SafetyStop);
    NoCaseYet(results, o, Unsupported);
  }

  /** The loop over the required inputs of one obligation. */
  method ExecuteObligation(inputs: map<string, TestInput>, o: Obligation, outcomes: nat -> Outcome,
                           ghost earlier: seq<ObligationResult>, tally: Tally)
    returns (result: ObligationResult, more: Tally)
    requires Tallies(tally, earlier)
    ensures result == ResultOf(inputs, o, outcomes)
    ensures Tallies(more, earlier + [result])
  {
    hide Tallies;
    var cases: seq<CaseResult> := [];
    more := tally;
    TallyNoneYet(tally, earlier, o.obligationId);
    for j := 0 to |o.requiredInputRefs|
      invariant |cases| == j && forall k :: 0 <= k < j ==>
                cases[k] == CaseOf(inputs, o.requiredInputRefs[k], outcomes(k))
      invariant Tallies(more, earlier + [ObligationResult(o.obligationId, cases)])
    {
      var caseResult := CaseOf(inputs, o.requiredInputRefs[j], outcomes(j));
      TallyOneMore(more, earlier, o.obligationId, cases, caseResult);
      more := Count(more, outcomes(j));
      cases := cases + [caseResult];
    }
    result := ObligationResult(o.obligationId, cases);
    assert cases == ResultOf(inputs, o, outcomes).cases;
  }

  // ----- what is reported, in terms of what the cases came to ----------------------------------

  /** The required pairs, by position. */
  predicate IsRequired(s: Semantics, i: int, j: int) {
    0 <= i < |s.obligations| && 0 <= j < |s.obligations[i].requiredInputRefs|
  }

  /** Some required case came to this outcome. */
  ghost predicate ComesTo(s: Semantics, outcomes: nat -> nat -> Outcome, outcome: Outcome) {
    exists i: nat, j: nat :: IsRequired(s, i, j) && outcomes(i)(j) == outcome
  }

  ghost predicate KnownInput(s: Semantics, id: string) {
    exists k :: 0 <= k < |s.testInputs| && s.testInputs[k].inputId == id
  }

  /** One result for each obligation and one case for each of its inputs, in their order, each with the very outcome the
      case came to and the identifier of its input; an input that does not exist is reported without one. */
  ghost predicate ReportsOutcomes(s: Semantics, outcomes: nat -> nat -> Outcome, results: seq<ObligationResult>) {
    && |results| == |s.obligations|
    && forall i: nat :: i < |results| ==>
         && results[i].obligationId == s.obligations[i].obligationId
         && |results[i].cases| == |s.obligations[i].requiredInputRefs|
         && forall j: nat :: j < |results[i].cases| ==>
              && results[i].cases[j].disposition == Disposed(outcomes(i)(j))
              && var id := s.obligations[i].requiredInputRefs[j].id;
              results[i].cases[j].inputId == if KnownInput(s, id) then id else ""
  }

  /** A required pair that could not be tested decides first, then one that was not blocked. */
  ghost predicate IsVerdict(s: Semantics, outcomes: nat -> nat -> Outcome, state: State) {
    && (state.CouldNotTest? <==> ComesTo(s, outcomes, SafetyStop) || ComesTo(s, outcomes, Unsupported))
    && (state.BlockedState? <==> forall i: nat, j: nat :: IsRequired(s, i, j) ==> outcomes(i)(j) == Blocked)
    && (state.NotBlockedState? <==>
          !ComesTo(s, outcomes, SafetyStop) && !ComesTo(s, outcomes, Unsupported) && ComesTo(s, outcomes, NotBlocked))
  }

  lemma {:induction false} BuiltResultsReport(s: Semantics, outcomes: nat -> nat -> Outcome)
    ensures ReportsOutcomes(s, outcomes, ResultsOf(Index(s.testInputs, InputKey), s.obligations, outcomes))
  {
    var inputs := Index(s.testInputs, InputKey);
    var results := ResultsOf(inputs, s.obligations, outcomes);
    IndexKeys(s.testInputs, InputKey);
    forall id: string ensures id in inputs <==> KnownInput(s, id) {
      if id in inputs {
        var k :| 0 <= k < |s.testInputs| && InputKey(s.testInputs[k]) == id;
      }
      if KnownInput(s, id) {
        var k :| 0 <= k < |s.testInputs| && s.testInputs[k].inputId == id;
        assert InputKey(s.testInputs[k]) in inputs;
      }
    }
    hide Index;
    forall i: nat, j: nat | i < |results| && j < |results[i].cases|
      ensures results[i].cases[j].disposition == Disposed(outcomes(i)(j))
      ensures var id := s.obligations[i].requiredInputRefs[j].id;
              results[i].cases[j].inputId == if KnownInput(s, id) then id else ""
    {
      assert results[i] == ResultOf(inputs, s.obligations[i], outcomes(i));
    }
  }

  lemma {:induction false} OccursAsReported(s: Semantics, outcomes: nat -> nat -> Outcome,
                                            results: seq<ObligationResult>,
                                            outcome: Outcome)
    requires ReportsOutcomes(s, outcomes, results)
    ensures Occurs(results, outcome) <==> ComesTo(s, outcomes, outcome)
  {
    if Occurs(results, outcome) {
      var i, j :| 0 <= i < |results| && 0 <= j < |results[i].cases|
        && results[i].cases[j].disposition == Disposed(outcome);
      assert IsRequired(s, i, j);
    }
    if ComesTo(s, outcomes, outcome) {
      var i: nat, j: nat :| IsRequired(s, i, j) && outcomes(i)(j) == outcome;
      assert results[i].cases[j].disposition == Disposed(outcome);
    }
  }

  lemma {:induction false} VerdictByTally(s: Semantics, outcomes: nat -> nat -> Outcome, results: seq<ObligationResult>,
                                          t: Tally, state: State)
    requires ReportsOutcomes(s, outcomes, results) && Tallies(t, results)
    requires state == if t.safety > 0 || t.unsupported > 0 then CouldNotTest
                      else if t.notBlocked > 0 then NotBlockedState else BlockedState
    ensures IsVerdict(s, outcomes, state)
  {
    hide ReportsOutcomes, Occurs;
    OccursAsReported(s, outcomes, results, SafetyStop);
    OccursAsReported(s, outcomes, results, Unsupported);
    OccursAsReported(s, outcomes, results, NotBlocked);
    hide Tallies;
    if state.BlockedState? {
      forall i: nat, j: nat | IsRequired(s, i, j) ensures outcomes(i)(j) == Blocked {
        assert ComesTo(s, outcomes, outcomes(i)(j));
      }
    }
  }

  lemma {:induction false} AllBlockedAsReported(s: Semantics, outcomes: nat -> nat -> Outcome,
                                                results: seq<ObligationResult>)
    requires ReportsOutcomes(s, outcomes, results)
    ensures AllBlocked(results) <==> forall i: nat, j: nat :: IsRequired(s, i, j) ==> outcomes(i)(j) == Blocked
  {
    if AllBlocked(results) {
      forall i: nat, j: nat | IsRequired(s, i, j) ensures outcomes(i)(j) == Blocked {
        assert results[i].cases[j].disposition == Disposed(Blocked);
      }
    }
    if forall i: nat, j: nat :: IsRequired(s, i, j) ==> outcomes(i)(j) == Blocked {
      forall i, j | 0 <= i < |results| && 0 <= j < |results[i].cases|
        ensures results[i].cases[j].disposition == Disposed(Blocked)
      {
        assert IsRequired(s, i, j);
      }
    }
  }

  /** The obligation loop and the accounting of executeSharedContractV2. */
  method Execute(s: Semantics, outcomes: nat -> nat -> Outcome)
    returns (results: seq<ObligationResult>, accounts: Accounts, state: State)
    ensures results == ResultsOf(Index(s.testInputs, InputKey), s.obligations, outcomes)
            && accounts == AccountsOf(s, results)
    ensures ReportsOutcomes(s, outcomes, results)
    ensures state.Malfunction? <==> !Accounted(s, results, accounts)
    ensures !state.Malfunction? ==>
              && IsVerdict(s, outcomes, state)
              && (state.BlockedState? <==> AllBlocked(results))
              && (state.CouldNotTest? <==> Occurs(results, SafetyStop) || Occurs(results, Unsupported))
  {
    hide Accounted, RepresentedMembers, UnsupportedMembers, ResultsOf, ResultOf, Occurs, AllBlocked, ReportsOutcomes;
    hide ComesTo;
    var inputs := IndexInputs(s.testInputs);
    var tally;
    results, tally := ExecuteObligations(inputs, s.obligations, outcomes);
    BuiltResultsReport(s, outcomes);
    var represented, unsupported := CollectMembers(s);
    var work := tally.blocked + tally.notBlocked + tally.safety + tally.unsupported;
    accounts := Accounts(|s.obligations|, |results|, 0, |s.members|, |represented|, |unsupported|, 0, work, work, 0);
    var valid := ValidateAccounting(s, results, accounts);
    if !valid {
      return results, accounts, Malfunction;
    }
    state := if tally.safety > 0 || tally.unsupported > 0 then CouldNotTest
             else if tally.notBlocked > 0 then NotBlockedState else BlockedState;
    VerdictByTally(s, outcomes, results, tally, state);
    AllBlockedAsReported(s, outcomes, results);
  }

  method ExecuteObligations(inputs: map<string, TestInput>, obligations: seq<Obligation>,
                            outcomes: nat -> nat -> Outcome)
    returns (results: seq<ObligationResult>, tally: Tally)
    ensures results == ResultsOf(inputs, obligations, outcomes) && Tallies(tally, results)
  {
    hide ResultOf, ResultsOf, Tallies;
    tally := Tally(0, 0, 0, 0);
    results := [];
    NoTally();
    for i := 0 to |obligations|
      invariant results == ResultsOf(inputs, obligations[..i], outcomes)
      invariant Tallies(tally, results)
    {
      var result, more := ExecuteObligation(inputs, obligations[i], outcomes(i), results, tally);
      ResultsGrow(inputs, obligations, outcomes, i);
      results, tally := results + [result], more;
    }
    assert obligations[..|obligations|] == obligations;
  }

  lemma {:induction false} NoTally()
    ensures Tallies(Tally(0, 0, 0, 0), [])
  {
  }

  lemma {:induction false} ResultsGrow(inputs: map<string, TestInput>, obligations: seq<Obligation>,
                                       outcomes: nat -> nat -> Outcome, i: nat)
    requires i < |obligations|
    ensures ResultsOf(inputs, obligations[..i + 1], outcomes)
         == ResultsOf(inputs, obligations[..i], outcomes) + [ResultOf(inputs, obligations[i], outcomes(i))]
  {
  }

  /** The index of the test inputs; a repeated identifier would keep the last one. */
  method IndexInputs(items: seq<TestInput>) returns (inputs: map<string, TestInput>)
    ensures inputs == Index(items, InputKey)
  {
    inputs := map[];
    for i := 0 to |items|
      invariant inputs == Index(items[..i], InputKey)
    {
      assert items[..i + 1][..i] == items[..i];
      inputs := inputs[items[i].inputId := items[i]];
    }
    assert items[..|items|] == items;
  }

  /** Together: whatever the completeness check accepts is executed without the malfunction branch; every required pair
      gets its case, with the outcome it came to; the counts are those of the document, nothing is unaccounted; and the
      run is reported blocked exactly when every required case was. */
  method ExecuteAccepted(cg: Document, s: Semantics, outcomes: nat -> nat -> Outcome)
    returns (results: seq<ObligationResult>, accounts: Accounts, state: State)
    requires Complete(cg, s)
    ensures !state.Malfunction? && (state.BlockedState? <==> AllBlocked(results))
    ensures ReportsOutcomes(s, outcomes, results) && IsVerdict(s, outcomes, state)
    ensures forall i, j :: IsRequired(s, i, j) ==>
            results[i].cases[j].inputId == s.obligations[i].requiredInputRefs[j].id
    ensures forall i, j :: 0 <= i < |s.obligations| && 0 <= j < |s.obligations[i].requiredInputRefs| ==>
              HasCase(results, s.obligations[i].obligationId, s.obligations[i].requiredInputRefs[j].id)
    ensures accounts.requiredObligations == accounts.accountedObligations == |s.obligations|
    ensures accounts.requiredWork == accounts.disposedWork == TotalRequired(s.obligations)
    ensures accounts.sourceMembers == |s.members| == accounts.representedMembers + accounts.unsupportedMembers
    ensures accounts.unaccountedObligations == accounts.unaccountedMembers == accounts.unaccountedWork == 0
  {
    hide Complete, Accounted, AllBlocked, HasCase, ReportsOutcomes, IsVerdict, ResultsOf;
    results, accounts, state := Execute(s, outcomes);
    AcceptedIsAccounted(cg, s, outcomes);
    AcceptedObligations(cg, s);
    AcceptedInputs(cg, s, outcomes, results);
    MembersAreCounted(cg, s);
    CasesAreCounted(Index(s.testInputs, InputKey), s.obligations, outcomes);
    forall i, j | 0 <= i < |s.obligations| && 0 <= j < |s.obligations[i].requiredInputRefs|
      ensures HasCase(results, s.obligations[i].obligationId, s.obligations[i].requiredInputRefs[j].id)
    {
      RequiredPair(s, i, j);
      AccountedIsExact(s, results, accounts, s.obligations[i].obligationId, s.obligations[i].requiredInputRefs[j].id);
    }
  }

  lemma {:induction false} AcceptedInputs(cg: Document, s: Semantics, outcomes: nat -> nat -> Outcome,
                                          results: seq<ObligationResult>)
    requires Complete(cg, s) && ReportsOutcomes(s, outcomes, results)
    ensures |results| == |s.obligations|
    ensures forall i, j :: IsRequired(s, i, j) ==>
              && j < |results[i].cases|
              && results[i].cases[j].inputId == s.obligations[i].requiredInputRefs[j].id
  {
    hide Complete;
    AcceptedObligations(cg, s);
    forall i: nat, j: nat | IsRequired(s, i, j) ensures KnownInput(s, s.obligations[i].requiredInputRefs[j].id) {
      var refs := s.obligations[i].requiredInputRefs;
      assert refs[j].id in IdSet(refs);
      var k :| 0 <= k < |s.testInputs| && InputKey(s.testInputs[k]) == refs[j].id;
    }
  }

  lemma {:induction false} RequiredPair(s: Semantics, i: nat, j: nat)
    requires Distinct(Ids(s.obligations, ObligationKey))
    requires i < |s.obligations| && j < |s.obligations[i].requiredInputRefs|
    ensures (s.obligations[i].obligationId, s.obligations[i].requiredInputRefs[j].id) in Pairs(Expected(s.obligations))
  {
    ExpectedFinds(s.obligations);
    assert s.obligations[i].requiredInputRefs[j].id in IdSet(s.obligations[i].requiredInputRefs);
  }

  /** In results the validator accepts, the counts are right: one result for each obligation, one case for each required
      input, every source member represented or unsupported and none both, and nothing unaccounted. */
  lemma {:induction false} AccountedCounts(s: Semantics, results: seq<ObligationResult>, a: Accounts)
    requires Accounted(s, results, a) && Distinct(Ids(s.obligations, ObligationKey))
    ensures a.requiredObligations == a.accountedObligations == |results| == |s.obligations|
    ensures a.requiredWork == TotalRequired(s.obligations) && a.disposedWork == TotalCases(results)
    ensures a.unaccountedObligations == a.unaccountedMembers == a.unaccountedWork == 0
    ensures a.sourceMembers == |s.members| == a.representedMembers + a.unsupportedMembers
    ensures a.representedMembers == |set t, i | t in s.testInputs
            && 0 <= i < |t.sourceMemberRefs| :: t.sourceMemberRefs[i].id|
  {
    ExpectedSize(s.obligations);
    PairsAreCounted(s.obligations);
    RepresentedAre(s.testInputs);
    hide ResultsAccount, Expected, Pairs, UnionOver;
  }

  lemma {:induction false} RepresentedAre(inputs: seq<TestInput>)
    ensures UnionOver(inputs, InputMembers)
         == set t, i | t in inputs && 0 <= i < |t.sourceMemberRefs| :: t.sourceMemberRefs[i].id
    decreases |inputs|
  {
    if inputs != [] {
      var init, last := inputs[..|inputs| - 1], inputs[|inputs| - 1];
      RepresentedAre(init);
      assert inputs == init + [last];
      forall x ensures x in UnionOver(inputs, InputMembers)
                  <==> exists t, i :: t in inputs && 0 <= i < |t.sourceMemberRefs| && t.sourceMemberRefs[i].id == x {
        if x in InputMembers(last) {
          var i :| 0 <= i < |last.sourceMemberRefs| && last.sourceMemberRefs[i].id == x;
          assert last in inputs;
        }
      }
    }
  }
}
