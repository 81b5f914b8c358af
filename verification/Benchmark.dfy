/** The accounting of the mapping benchmark: a dozen counters that have to balance, whatever the matcher returns. */
module Benchmark {
  import opened Outcomes

  // ---------------------------------------------------------------- cases and decisions

  datatype Status = Auto | Review | Blocked | NoStatus(text: string)

  /** A value where a score belongs: a finite number, or anything else. */
  datatype Score = Finite(value: real) | NotFinite

  datatype Decision = Decision(source: string, target: Option<string>, status: Status, score: Score, margin: Score)

  datatype Expectation = Expectation(source: string, target: Option<string>)

  /** A labelled case; `safe` is the verdict of the type contract on a pair of fields. */
  datatype Case = Case(
    id: string, sources: set<string>, targets: set<string>, expected: seq<Expectation>, reviewOnly: set<string>,
    safe: (string, string) -> bool)

  /** A case together with what the matcher proposed for it. */
  datatype Trial = Trial(c: Case, decisions: seq<Decision>)

  datatype Reason =
    | UnknownSource | InvalidStatus | InvalidScore | InvalidMargin | BlockedHasTarget | MissingTarget | UnknownTarget
    | DuplicateDecision | MissingDecision | AutoOnUnmappable | AutoTargetMismatch
    | AutoOnReviewOnly | AutoContractMismatch
    | TargetMismatch

  datatype Failure = Failure(
    caseId: string, source: string, expected: Option<string>, actual: Option<string>,
    status: Option<Status>, reasons: seq<Reason>)

  predicate UnitInterval(s: Score) {
    s.Finite? && 0.0 <= s.value <= 1.0
  }

  predicate IsExpected(c: Case, source: string) {
    exists i :: 0 <= i < |c.expected| && c.expected[i].source == source
  }

  /** `case.expected.get(source)`. */
  function ExpectedTarget(expected: seq<Expectation>, source: string): Option<string> {
    if expected == [] then None
    else if expected[0].source == source then expected[0].target
    else ExpectedTarget(expected[1..], source)
  }

  /** `status in {AUTO, REVIEW}`: the statuses are a string enumeration, so their raw texts are in the set as well. */
  predicate Actionable(s: Status) {
    s in {Auto, Review, NoStatus("auto"), NoStatus("review")}
  }

  /** The condition on the target, by status. */
  function TargetReasons(c: Case, d: Decision): seq<Reason> {
    if d.status == Blocked && d.target.Some? then [BlockedHasTarget]
    else if Actionable(d.status) && d.target.None? then [MissingTarget]
    else if Actionable(d.status) && d.target.value !in c.targets then [UnknownTarget]
    else []
  }

  /** `_decision_contract_reasons`. */
  function ContractReasons(c: Case, d: Decision): seq<Reason> {
    (if IsExpected(c, d.source) then [] else [UnknownSource]) +
    (if d.status.NoStatus? then [InvalidStatus] else []) +
    (if UnitInterval(d.score) then [] else [InvalidScore]) +
    (if UnitInterval(d.margin) then [] else [InvalidMargin]) +
    TargetReasons(c, d)
  }

  /** The decisions for one source, in order. */
  function Group(ds: seq<Decision>, source: string): seq<Decision> {
    if ds == [] then []
    else Group(ds[..|ds| - 1], source) + (if ds[|ds| - 1].source == source then [ds[|ds| - 1]] else [])
  }

  /** A decision that breaks the contract, or shares its source with another decision. */
  predicate IsInvalid(c: Case, ds: seq<Decision>, d: Decision) {
    ContractReasons(c, d) != [] || |Group(ds, d.source)| != 1
  }

  /** The decision that counts for a source: its only one, if that one honours the contract. */
  function Usable(c: Case, ds: seq<Decision>, source: string): Option<Decision> {
    var g := Group(ds, source);
    if |g| == 1 && ContractReasons(c, g[0]) == [] then Some(g[0]) else None
  }

  // ---------------------------------------------------------------- the counters

  datatype Tally = Tally(
    scored: nat, mappable: nat, eligible: nat, auto: nat, correct: nat, incorrect: nat, review: nat, blocked: nat,
    suggested: nat, onUnmappable: nat, onReviewOnly: nat, onContract: nat, onInvalid: nat,
    suggestionFailures: nat, unsafeFailures: nat, contractFailures: nat)

  const ZERO := Tally(0, 0, 0, 0, 0, 0, 0, 0, 0, 0, 0, 0, 0, 0, 0, 0)

  function Plus(a: Tally, b: Tally): Tally {
    Tally(a.scored + b.scored, a.mappable + b.mappable, a.eligible + b.eligible, a.auto + b.auto, a.correct + b.correct,
          a.incorrect + b.incorrect, a.review + b.review, a.blocked + b.blocked, a.suggested + b.suggested,
          a.onUnmappable + b.onUnmappable, a.onReviewOnly + b.onReviewOnly, a.onContract + b.onContract,
          a.onInvalid + b.onInvalid, a.suggestionFailures + b.suggestionFailures, a.unsafeFailures + b.unsafeFailures,
          a.contractFailures + b.contractFailures)
  }

  lemma PlusLaws(a: Tally, b: Tally, c: Tally)
    ensures Plus(Plus(a, b), c) == Plus(a, Plus(b, c)) && Plus(a, b) == Plus(b, a) && Plus(a, ZERO) == a
  {
  }

  function One(b: bool): nat { if b then 1 else 0 }

  /** Why an automatic decision for an expected field is unsafe. */
  function SafetyReasons(c: Case, e: Expectation, d: Decision): seq<Reason> {
    (if e.target.None? then [AutoOnUnmappable] else if d.target != e.target then [AutoTargetMismatch] else []) +
    (if e.source in c.reviewOnly then [AutoOnReviewOnly] else []) +
    (if ContractSafe(c, e.source, d.target) then [] else [AutoContractMismatch])
  }

  predicate ContractSafe(c: Case, source: string, target: Option<string>) {
    target.Some? && target.value in c.targets && c.safe(source, target.value)
  }

  /** What one expected field contributes, given the decision that counts for it. */
  function FieldTally(c: Case, ds: seq<Decision>, e: Expectation): Tally {
    var base := ZERO.(scored := 1, mappable := One(e.target.Some?),
                      eligible := One(e.target.Some? && e.source !in c.reviewOnly));
    match Usable(c, ds, e.source)
    case None => base.(suggestionFailures := 1, contractFailures := One(Group(ds, e.source) == []))
    case Some(d) =>
      var auto := d.status == Auto;
      var safe := SafetyReasons(c, e, d) == [];
      base.(suggested := One(d.target == e.target), suggestionFailures := One(d.target != e.target),
            auto := One(auto), correct := One(auto && safe), incorrect := One(auto && !safe),
            unsafeFailures := One(auto && !safe),
            onUnmappable := One(auto && e.target.None?), onReviewOnly := One(auto && e.source in c.reviewOnly),
            onContract := One(auto && !ContractSafe(c, e.source, d.target)),
            review := One(d.status == Review), blocked := One(d.status != Auto && d.status != Review))
  }

  /** What one decision contributes by breaking the contract. */
  function DecisionTally(c: Case, ds: seq<Decision>, d: Decision): Tally {
    if !IsInvalid(c, ds, d) then ZERO
    else ZERO.(contractFailures := 1, auto := One(d.status == Auto),
               incorrect := One(d.status == Auto), onInvalid := One(d.status == Auto))
  }

  function FieldTallies(c: Case, ds: seq<Decision>, es: seq<Expectation>): Tally {
    if es == [] then ZERO else Plus(FieldTallies(c, ds, es[..|es| - 1]), FieldTally(c, ds, es[|es| - 1]))
  }

  function DecisionTallies(c: Case, ds: seq<Decision>, xs: seq<Decision>): Tally {
    if xs == [] then ZERO else Plus(DecisionTallies(c, ds, xs[..|xs| - 1]), DecisionTally(c, ds, xs[|xs| - 1]))
  }

  function CaseTally(t: Trial): Tally {
    Plus(DecisionTallies(t.c, t.decisions, t.decisions), FieldTallies(t.c, t.decisions, t.c.expected))
  }

  function Report(ts: seq<Trial>): Tally {
    if ts == [] then ZERO else Plus(Report(ts[..|ts| - 1]), CaseTally(ts[|ts| - 1]))
  }

  // ---------------------------------------------------------------- the failures

  datatype Results = Results(tally: Tally, suggestions: seq<Failure>, unsafe: seq<Failure>, contract: seq<Failure>)

  const NOTHING := Results(ZERO, [], [], [])

  function Joined(a: Results, b: Results): Results {
    Results(Plus(a.tally, b.tally), a.suggestions + b.suggestions, a.unsafe + b.unsafe, a.contract + b.contract)
  }

  /** Everything one expected field contributes: its counters, and the failures that explain them. */
  function FieldResults(c: Case, ds: seq<Decision>, e: Expectation): Results {
    var tally := FieldTally(c, ds, e);
    match Usable(c, ds, e.source)
    case None =>
      var missing := Failure(c.id, e.source, e.target, None, None, [MissingDecision]);
      Results(tally, [missing], [], if Group(ds, e.source) == [] then [missing] else [])
    case Some(d) =>
      var report := (reasons: seq<Reason>) => Failure(c.id, e.source, e.target, d.target, Some(d.status), reasons);
      var reasons := SafetyReasons(c, e, d);
      Results(tally,
              if d.target != e.target then [report([TargetMismatch])] else [],
              if d.status == Auto && reasons != [] then [report(reasons)] else [],
              [])
  }

  function FieldsResults(c: Case, ds: seq<Decision>, es: seq<Expectation>): Results {
    if es == [] then NOTHING else Joined(FieldsResults(c, ds, es[..|es| - 1]), FieldResults(c, ds, es[|es| - 1]))
  }

  /** The failures of the invalid decisions among `xs`, each with every rule it breaks. */
  function DecisionFailures(c: Case, ds: seq<Decision>, xs: seq<Decision>): seq<Failure> {
    if xs == [] then []
    else
      var d := xs[|xs| - 1];
      var reasons := ContractReasons(c, d) + (if |Group(ds, d.source)| != 1 then [DuplicateDecision] else []);
      DecisionFailures(c, ds, xs[..|xs| - 1]) +
      (if reasons == [] then []
       else [Failure(c.id, d.source, ExpectedTarget(c.expected, d.source), d.target, Some(d.status), reasons)])
  }

  /** The sources of the decisions, as they first come. */
  function Sources(ds: seq<Decision>): seq<string> {
    if ds == [] then []
    else
      var before := Sources(ds[..|ds| - 1]);
      if ds[|ds| - 1].source in before then before else before + [ds[|ds| - 1].source]
  }

  /** The invalid decisions are reported source by source. */
  function GroupFailures(c: Case, ds: seq<Decision>, order: seq<string>): seq<Failure> {
    if order == [] then []
    else GroupFailures(c, ds, order[..|order| - 1]) + DecisionFailures(c, ds, Group(ds, order[|order| - 1]))
  }

  function CaseResults(t: Trial): Results {
    Joined(Results(DecisionTallies(t.c, t.decisions, t.decisions), [], [],
                   GroupFailures(t.c, t.decisions, Sources(t.decisions))),
           FieldsResults(t.c, t.decisions, t.c.expected))
  }

  function ReportResults(ts: seq<Trial>): Results {
    if ts == [] then NOTHING else Joined(ReportResults(ts[..|ts| - 1]), CaseResults(ts[|ts| - 1]))
  }

  // ---------------------------------------------------------------- the books balance

  predicate Balanced(t: Tally) {
    && t.auto == t.correct + t.incorrect
    && t.incorrect == t.unsafeFailures + t.onInvalid
    && t.suggested + t.suggestionFailures == t.scored
    && t.correct <= t.eligible <= t.mappable <= t.scored
    && t.auto + t.review + t.blocked <= t.scored + t.onInvalid
    && t.onInvalid <= t.contractFailures
  }

  lemma BalancesAdd(a: Tally, b: Tally)
    requires Balanced(a) && Balanced(b)
    ensures Balanced(Plus(a, b))
  {
  }

  lemma FieldTallyBalances(c: Case, ds: seq<Decision>, e: Expectation)
    ensures Balanced(FieldTally(c, ds, e))
  {
    hide ContractSafe, Group, Usable;
  }

  lemma {:induction false} FieldTalliesBalance(c: Case, ds: seq<Decision>, es: seq<Expectation>)
    ensures Balanced(FieldTallies(c, ds, es))
  {
    if es != [] {
      hide FieldTally, Balanced, Plus;
      FieldTalliesBalance(c, ds, es[..|es| - 1]);
      FieldTallyBalances(c, ds, es[|es| - 1]);
      BalancesAdd(FieldTallies(c, ds, es[..|es| - 1]), FieldTally(c, ds, es[|es| - 1]));
    }
  }

  lemma DecisionTallyBalances(c: Case, ds: seq<Decision>, d: Decision)
    ensures Balanced(DecisionTally(c, ds, d))
  {
    hide IsInvalid;
  }

  lemma {:induction false} DecisionTalliesBalance(c: Case, ds: seq<Decision>, xs: seq<Decision>)
    ensures Balanced(DecisionTallies(c, ds, xs))
  {
    if xs != [] {
      hide DecisionTally, Balanced, Plus;
      DecisionTalliesBalance(c, ds, xs[..|xs| - 1]);
      DecisionTallyBalances(c, ds, xs[|xs| - 1]);
      BalancesAdd(DecisionTallies(c, ds, xs[..|xs| - 1]), DecisionTally(c, ds, xs[|xs| - 1]));
    }
  }

  /** For every corpus and every matcher output, however malformed or duplicated, the report balances. */
  lemma {:induction false} ReportBalances(ts: seq<Trial>)
    ensures Balanced(Report(ts))
  {
    if ts != [] {
      hide FieldTallies, DecisionTallies, Balanced, Plus;
      var t := ts[|ts| - 1];
      ReportBalances(ts[..|ts| - 1]);
      DecisionTalliesBalance(t.c, t.decisions, t.decisions);
      FieldTalliesBalance(t.c, t.decisions, t.c.expected);
      BalancesAdd(DecisionTallies(t.c, t.decisions, t.decisions), FieldTallies(t.c, t.decisions, t.c.expected));
      BalancesAdd(Report(ts[..|ts| - 1]), CaseTally(t));
    }
  }

  function Share(part: nat, whole: nat): real
    requires whole > 0
  {
    part as real / whole as real
  }

  lemma ShareInUnitInterval(part: nat, whole: nat)
    requires part <= whole && whole > 0
    ensures 0.0 <= Share(part, whole) <= 1.0
  {
    assert part as real <= whole as real;
  }

  /** Precision, coverage, overall rate and suggestion accuracy all lie between zero and one. */
  lemma RatiosAreShares(ts: seq<Trial>)
    ensures var r := Report(ts);
            && (r.auto > 0 ==> 0.0 <= Share(r.correct, r.auto) <= 1.0)
            && (r.eligible > 0 ==> 0.0 <= Share(r.correct, r.eligible) <= 1.0)
            && (r.mappable > 0 ==> 0.0 <= Share(r.correct, r.mappable) <= 1.0)
            && (r.scored > 0 ==> 0.0 <= Share(r.suggested, r.scored) <= 1.0)
  {
    hide Report, Share;
    ReportBalances(ts);
    var r := Report(ts);
    if r.auto > 0 { ShareInUnitInterval(r.correct, r.auto); }
    if r.eligible > 0 { ShareInUnitInterval(r.correct, r.eligible); }
    if r.mappable > 0 { ShareInUnitInterval(r.correct, r.mappable); }
    if r.scored > 0 { ShareInUnitInterval(r.suggested, r.scored); }
  }

  // ---------------------------------------------------------------- grouping loses no decision

  predicate DistinctStrings(s: seq<string>) {
    forall i, j :: 0 <= i < j < |s| ==> s[i] != s[j]
  }

  /** The decisions, listed group by group. */
  function GroupTallies(c: Case, ds: seq<Decision>, xs: seq<Decision>, order: seq<string>): Tally {
    if order == [] then ZERO
    else Plus(GroupTallies(c, ds, xs, order[..|order| - 1]), DecisionTallies(c, ds, Group(xs, order[|order| - 1])))
  }

  lemma GroupOfAppended(xs: seq<Decision>, x: Decision, source: string)
    ensures Group(xs + [x], source) == if x.source == source then Group(xs, source) + [x] else Group(xs, source)
  {
    assert (xs + [x])[..|xs|] == xs;
  }

  lemma TalliesOfAppended(c: Case, ds: seq<Decision>, xs: seq<Decision>, x: Decision)
    ensures DecisionTallies(c, ds, xs + [x]) == Plus(DecisionTallies(c, ds, xs), DecisionTally(c, ds, x))
  {
    assert (xs + [x])[..|xs|] == xs;
  }

  lemma {:induction false} OneMoreDecision(c: Case, ds: seq<Decision>,
      xs: seq<Decision>, x: Decision, order: seq<string>)
    requires DistinctStrings(order)
    ensures GroupTallies(c, ds, xs + [x], order) ==
            if x.source in order then Plus(GroupTallies(c, ds, xs, order), DecisionTally(c, ds, x))
            else GroupTallies(c, ds, xs, order)
    decreases |order|
  {
    hide DecisionTally, DecisionTallies, Group, Plus;
    if order != [] {
      var n := |order| - 1;
      OneMoreDecision(c, ds, xs, x, order[..n]);
      GroupOfAppended(xs, x, order[n]);
      var g := DecisionTallies(c, ds, Group(xs, order[n]));
      TalliesOfAppended(c, ds, Group(xs, order[n]), x);
      PlusLaws(GroupTallies(c, ds, xs, order[..n]), DecisionTally(c, ds, x), g);
      PlusLaws(GroupTallies(c, ds, xs, order[..n]), g, DecisionTally(c, ds, x));
      PlusLaws(DecisionTally(c, ds, x), g, ZERO);
      assert order == order[..n] + [order[n]];
      if x.source == order[n] { assert x.source !in order[..n]; }
    }
  }

  lemma NoGroups(source: string)
    ensures Group([], source) == []
  {
  }

  lemma {:induction false} NoDecisions(c: Case, ds: seq<Decision>, order: seq<string>)
    ensures GroupTallies(c, ds, [], order) == ZERO
    decreases |order|
  {
    hide DecisionTallies, Group;
    if order != [] {
      NoDecisions(c, ds, order[..|order| - 1]);
      NothingJudged(c, ds);
      NoGroups(order[|order| - 1]);
    }
  }

  /** Summing over the groups is summing over the decisions. */
  lemma {:induction false} GroupingLosesNothing(c: Case, ds: seq<Decision>, xs: seq<Decision>, order: seq<string>)
    requires DistinctStrings(order) && forall i :: 0 <= i < |xs| ==> xs[i].source in order
    ensures GroupTallies(c, ds, xs, order) == DecisionTallies(c, ds, xs)
    decreases |xs|
  {
    hide DecisionTally, Group;
    if xs == [] {
      NoDecisions(c, ds, order);
    } else {
      var n := |xs| - 1;
      GroupingLosesNothing(c, ds, xs[..n], order);
      OneMoreDecision(c, ds, xs[..n], xs[n], order);
      assert xs[..n] + [xs[n]] == xs;
    }
  }

  lemma {:induction false} GroupHasSource(ds: seq<Decision>, source: string)
    ensures forall i :: 0 <= i < |Group(ds, source)| ==> Group(ds, source)[i].source == source
    ensures Group(ds, source) != [] <==> exists i :: 0 <= i < |ds| && ds[i].source == source
  {
    if ds != [] {
      var n := |ds| - 1;
      GroupHasSource(ds[..n], source);
      if Group(ds[..n], source) != [] {
        var i :| 0 <= i < n && ds[..n][i].source == source;
        assert ds[i].source == source;
      }
      if exists i :: 0 <= i < |ds| && ds[i].source == source {
        var i :| 0 <= i < |ds| && ds[i].source == source;
        assert i < n ==> ds[..n][i].source == source;
      }
    }
  }

  // ---------------------------------------------------------------- the failure lists are as long as the counters say

  predicate Listed(r: Results) {
    && |r.suggestions| == r.tally.suggestionFailures && |r.unsafe| == r.tally.unsafeFailures
    && |r.contract| == r.tally.contractFailures
  }

  lemma JoinedIsListed(a: Results, b: Results)
    requires Listed(a) && Listed(b)
    ensures Listed(Joined(a, b))
  {
  }

  lemma FieldIsListed(c: Case, ds: seq<Decision>, e: Expectation)
    ensures Listed(FieldResults(c, ds, e))
  {
    hide Usable, Group, ContractSafe;
  }

  lemma {:induction false} FieldsAreListed(c: Case, ds: seq<Decision>, es: seq<Expectation>)
    ensures FieldsResults(c, ds, es).tally == FieldTallies(c, ds, es) && Listed(FieldsResults(c, ds, es))
  {
    hide FieldTally, Plus, Usable;
    if es != [] {
      var n := |es| - 1;
      FieldsAreListed(c, ds, es[..n]);
      FieldIsListed(c, ds, es[n]);
      JoinedIsListed(FieldsResults(c, ds, es[..n]), FieldResults(c, ds, es[n]));
    }
  }

  lemma {:induction false} DecisionsAreListed(c: Case, ds: seq<Decision>, xs: seq<Decision>)
    ensures |DecisionFailures(c, ds, xs)| == DecisionTallies(c, ds, xs).contractFailures
  {
    hide ContractReasons, Group, ExpectedTarget;
    if xs != [] { DecisionsAreListed(c, ds, xs[..|xs| - 1]); }
  }

  lemma {:induction false} GroupsAreListed(c: Case, ds: seq<Decision>, order: seq<string>)
    ensures |GroupFailures(c, ds, order)| == GroupTallies(c, ds, ds, order).contractFailures
  {
    hide DecisionFailures, DecisionTallies, Group;
    if order != [] {
      var n := |order| - 1;
      GroupsAreListed(c, ds, order[..n]);
      DecisionsAreListed(c, ds, Group(ds, order[n]));
    }
  }

  lemma {:induction false} SourcesListEach(ds: seq<Decision>)
    ensures DistinctStrings(Sources(ds)) && forall i :: 0 <= i < |ds| ==> ds[i].source in Sources(ds)
  {
    if ds != [] {
      var n := |ds| - 1;
      SourcesListEach(ds[..n]);
      forall i | 0 <= i < n ensures ds[i].source in Sources(ds[..n]) { assert ds[..n][i] == ds[i]; }
    }
  }

  lemma CaseIsListed(t: Trial)
    ensures CaseResults(t).tally == CaseTally(t) && Listed(CaseResults(t))
  {
    var c, ds := t.c, t.decisions;
    SourcesListEach(ds);
    GroupsAreListed(c, ds, Sources(ds));
    GroupingLosesNothing(c, ds, ds, Sources(ds));
    FieldsAreListed(c, ds, c.expected);
    DecisionsOnlyBreakContracts(c, ds, ds);
    hide Sources, GroupFailures, GroupTallies, DecisionTallies, FieldsResults, FieldTallies;
    var judged := Results(DecisionTallies(c, ds, ds), [], [], GroupFailures(c, ds, Sources(ds)));
    JoinedIsListed(judged, FieldsResults(c, ds, c.expected));
  }

  lemma {:induction false} DecisionsOnlyBreakContracts(c: Case, ds: seq<Decision>, xs: seq<Decision>)
    ensures DecisionTallies(c, ds, xs).suggestionFailures == DecisionTallies(c, ds, xs).unsafeFailures == 0
  {
    hide IsInvalid;
    if xs != [] { DecisionsOnlyBreakContracts(c, ds, xs[..|xs| - 1]); }
  }

  /** The report's counters are the declarative sums, and its three lists are as long as its counters say. */
  lemma {:induction false} ReportIsListed(ts: seq<Trial>)
    ensures ReportResults(ts).tally == Report(ts) && Listed(ReportResults(ts))
  {
    hide CaseResults, CaseTally, Plus;
    if ts != [] {
      var n := |ts| - 1;
      ReportIsListed(ts[..n]);
      CaseIsListed(ts[n]);
      JoinedIsListed(ReportResults(ts[..n]), CaseResults(ts[n]));
    }
  }

  // ---------------------------------------------------------------- the loops of the benchmark

  /** What the dictionary says about one source. */
  ghost predicate GroupedAt(xs: seq<Decision>, grouped: map<string, seq<Decision>>, s: string) {
    if s in grouped then grouped[s] == Group(xs, s) && Group(xs, s) != [] else Group(xs, s) == []
  }

  /** `grouped` holds the decisions of `xs` by source, and `order` its keys as they first came. */
  ghost predicate Grouped(xs: seq<Decision>, grouped: map<string, seq<Decision>>, order: seq<string>) {
    && DistinctStrings(order) && (forall s :: s in grouped <==> s in order)
    && (forall s :: GroupedAt(xs, grouped, s))
  }

  lemma GroupedAtAppended(xs: seq<Decision>, d: Decision, grouped: map<string, seq<Decision>>, s: string)
    requires GroupedAt(xs, grouped, s)
    ensures var own := if d.source in grouped then grouped[d.source] + [d] else [d];
            GroupedAt(xs + [d], grouped[d.source := own], s)
  {
    GroupOfAppended(xs, d, s);
    hide Group;
    if s == d.source && s !in grouped { assert Group(xs, s) + [d] == [d]; }
  }

  lemma GroupedAppended(xs: seq<Decision>, d: Decision, grouped: map<string, seq<Decision>>, order: seq<string>)
    requires Grouped(xs, grouped, order)
    ensures d.source in grouped ==> Grouped(xs + [d], grouped[d.source := grouped[d.source] + [d]], order)
    ensures d.source !in grouped ==> Grouped(xs + [d], grouped[d.source := [d]], order + [d.source])
  {
    hide GroupedAt;
    var own := if d.source in grouped then grouped[d.source] + [d] else [d];
    var xs', grouped' := xs + [d], grouped[d.source := own];
    forall s ensures GroupedAt(xs', grouped', s) { GroupedAtAppended(xs, d, grouped, s); }
    if d.source !in grouped {
      var more := order + [d.source];
      assert forall s :: s in more <==> s in order || s == d.source;
    }
  }

  lemma EveryDecisionIsGrouped(xs: seq<Decision>, grouped: map<string, seq<Decision>>, order: seq<string>, i: nat)
    requires Grouped(xs, grouped, order) && i < |xs|
    ensures xs[i].source in order
  {
    assert GroupedAt(xs, grouped, xs[i].source);
    GroupHasSource(xs, xs[i].source);
  }

  /** The first loop over the decisions: a dictionary of lists. */
  method GroupDecisions(ds: seq<Decision>) returns (grouped: map<string, seq<Decision>>, order: seq<string>)
    ensures Grouped(ds, grouped, order) && order == Sources(ds)
  {
    hide Group;
    grouped, order := map[], [];
    NothingGrouped();
    for i := 0 to |ds|
      invariant Grouped(ds[..i], grouped, order) && order == Sources(ds[..i])
    {
      var d := ds[i];
      assert ds[..i + 1] == ds[..i] + [d] && ds[..i + 1][..i] == ds[..i];
      GroupedAppended(ds[..i], d, grouped, order);
      if d.source in grouped {
        grouped := grouped[d.source := grouped[d.source] + [d]];
      } else {
        grouped := grouped[d.source := [d]];
        order := order + [d.source];
      }
    }
    assert ds[..|ds|] == ds;
  }

  lemma NothingGrouped()
    ensures Grouped([], map[], [])
  {
  }

  /** What `failures` invalid decisions, `auto` of them automatic, contribute. */
  function Judged(failures: nat, auto: nat): Tally {
    ZERO.(contractFailures := failures, auto := auto, incorrect := auto, onInvalid := auto)
  }

  lemma JudgedOne(c: Case, ds: seq<Decision>, d: Decision, failures: nat, auto: nat)
    ensures Plus(Judged(failures, auto), DecisionTally(c, ds, d)) ==
            if ContractReasons(c, d) == [] && |Group(ds, d.source)| == 1 then Judged(failures, auto)
            else Judged(failures + 1, auto + One(d.status == Auto))
  {
    hide ContractReasons, Group;
  }

  lemma JudgeNext(c: Case, ds: seq<Decision>, group: seq<Decision>, i: nat, failures: nat, auto: nat)
    requires i < |group| && |group| == |Group(ds, group[i].source)|
    requires DecisionTallies(c, ds, group[..i]) == Judged(failures, auto)
    ensures var d := group[i];
            DecisionTallies(c, ds, group[..i + 1]) ==
            if ContractReasons(c, d) == [] && |group| == 1 then Judged(failures, auto)
            else Judged(failures + 1, auto + One(d.status == Auto))
  {
    hide ContractReasons, Group, DecisionTallies, DecisionTally, Judged, Plus;
    assert group[..i + 1] == group[..i] + [group[i]];
    TalliesOfAppended(c, ds, group[..i], group[i]);
    JudgedOne(c, ds, group[i], failures, auto);
  }

  lemma FailuresNext(c: Case, ds: seq<Decision>, group: seq<Decision>, i: nat, reasons: seq<Reason>)
    requires i < |group| && |group| == |Group(ds, group[i].source)|
    requires reasons == if |group| != 1 then ContractReasons(c, group[i]) + [DuplicateDecision]
                        else ContractReasons(c, group[i])
    ensures var d := group[i];
            DecisionFailures(c, ds, group[..i + 1]) ==
            if reasons == [] then DecisionFailures(c, ds, group[..i])
            else DecisionFailures(c, ds, group[..i]) +
                 [Failure(c.id, d.source, ExpectedTarget(c.expected, d.source), d.target, Some(d.status), reasons)]
  {
    hide ContractReasons, Group, ExpectedTarget;
    assert group[..i + 1][..i] == group[..i];
    assert ContractReasons(c, group[i]) + [] == ContractReasons(c, group[i]);
  }

  /** One group: its invalid decisions are reported, and its valid decision, if any, is kept. */
  method JudgeGroup(c: Case, ghost ds: seq<Decision>, source: string, group: seq<Decision>)
    returns (kept: Option<Decision>, failures: seq<Failure>, auto: nat)
    requires group == Group(ds, source)
    ensures kept == Usable(c, ds, source)
    ensures Judged(|failures|, auto) == DecisionTallies(c, ds, group)
    ensures failures == DecisionFailures(c, ds, group)
  {
    GroupHasSource(ds, source);
    hide Group, ContractReasons, Judged, DecisionTallies, DecisionFailures, ExpectedTarget;
    kept, failures, auto := None, [], 0;
    NothingJudged(c, ds);
    NothingReported(c, ds);
    assert group[..0] == [];
    for i := 0 to |group|
      invariant DecisionTallies(c, ds, group[..i]) == Judged(|failures|, auto)
      invariant failures == DecisionFailures(c, ds, group[..i])
      invariant kept == if i == 1 == |group| && ContractReasons(c, group[0]) == [] then Some(group[0]) else None
    {
      var d := group[i];
      JudgeNext(c, ds, group, i, |failures|, auto);
      var reasons := ContractReasons(c, d);
      if |group| != 1 { reasons := reasons + [DuplicateDecision]; }
      FailuresNext(c, ds, group, i, reasons);
      if reasons == [] {
        kept := Some(d);
        continue;
      }
      failures := failures +
        [Failure(c.id, source, ExpectedTarget(c.expected, source), d.target, Some(d.status), reasons)];
      if d.status == Auto { auto := auto + 1; }
    }
    assert group[..|group|] == group;
  }

  lemma NothingReported(c: Case, ds: seq<Decision>)
    ensures DecisionFailures(c, ds, []) == []
  {
  }

  lemma NothingJudged(c: Case, ds: seq<Decision>)
    ensures DecisionTallies(c, ds, []) == Judged(0, 0)
  {
  }

  lemma GroupOf(ds: seq<Decision>, grouped: map<string, seq<Decision>>, order: seq<string>, source: string)
    requires Grouped(ds, grouped, order) && source in order
    ensures source in grouped && grouped[source] == Group(ds, source)
  {
    assert GroupedAt(ds, grouped, source);
  }

  lemma NoGroup(ds: seq<Decision>, grouped: map<string, seq<Decision>>, order: seq<string>, source: string)
    requires Grouped(ds, grouped, order) && source !in order
    ensures Group(ds, source) == []
  {
    assert GroupedAt(ds, grouped, source);
  }

  lemma NothingGroupedJudged(c: Case, ds: seq<Decision>)
    ensures GroupTallies(c, ds, ds, []) == Judged(0, 0) && GroupFailures(c, ds, []) == []
  {
  }

  lemma JudgeNextGroup(c: Case, ds: seq<Decision>, order: seq<string>, i: nat, failures: seq<Failure>, auto: nat,
                       more: seq<Failure>, invalidAuto: nat)
    requires i < |order|
    requires Judged(|failures|, auto) == GroupTallies(c, ds, ds, order[..i])
    requires failures == GroupFailures(c, ds, order[..i])
    requires Judged(|more|, invalidAuto) == DecisionTallies(c, ds, Group(ds, order[i]))
    requires more == DecisionFailures(c, ds, Group(ds, order[i]))
    ensures Judged(|failures + more|, auto + invalidAuto) == GroupTallies(c, ds, ds, order[..i + 1])
    ensures failures + more == GroupFailures(c, ds, order[..i + 1])
  {
    hide DecisionTallies, DecisionFailures, Group;
    assert order[..i + 1][..i] == order[..i];
  }

  /** The loop over the groups. */
  method JudgeDecisions(c: Case, ghost ds: seq<Decision>, grouped: map<string, seq<Decision>>, order: seq<string>)
    returns (bySource: map<string, Decision>, failures: seq<Failure>, auto: nat)
    requires Grouped(ds, grouped, order)
    ensures forall s :: Usable(c, ds, s) == if s in bySource then Some(bySource[s]) else None
    ensures Judged(|failures|, auto) == DecisionTallies(c, ds, ds) && failures == GroupFailures(c, ds, order)
  {
    hide Usable, DecisionTallies, DecisionFailures, Group, IsInvalid, GroupedAt;
    bySource, failures, auto := map[], [], 0;
    NothingGroupedJudged(c, ds);
    hide GroupTallies, GroupFailures, Judged;
    assert order[..0] == [];
    for i := 0 to |order|
      invariant Judged(|failures|, auto) == GroupTallies(c, ds, ds, order[..i])
      invariant failures == GroupFailures(c, ds, order[..i])
      invariant forall s :: s in bySource ==> s in order[..i]
      invariant forall s :: s in order[..i] ==> Usable(c, ds, s) == if s in bySource then Some(bySource[s]) else None
    {
      var source := order[i];
      assert order[..i + 1] == order[..i] + [source];
      GroupOf(ds, grouped, order, source);
      var kept, more, invalidAuto := JudgeGroup(c, ds, source, grouped[source]);
      JudgeNextGroup(c, ds, order, i, failures, auto, more, invalidAuto);
      if kept.Some? { bySource := bySource[source := kept.value]; }
      failures, auto := failures + more, auto + invalidAuto;
    }
    assert order[..|order|] == order;
    forall i | 0 <= i < |ds| ensures ds[i].source in order { EveryDecisionIsGrouped(ds, grouped, order, i); }
    GroupingLosesNothing(c, ds, ds, order);
    forall s | s !in order ensures Usable(c, ds, s) == None {
      NoGroup(ds, grouped, order, s);
      NoGroupNoDecision(c, ds, s);
    }
  }

  lemma NoGroupNoDecision(c: Case, ds: seq<Decision>, source: string)
    requires Group(ds, source) == []
    ensures Usable(c, ds, source) == None
  {
  }

  /** An automatic decision about a field that the source schema does not have. */
  predicate Unschooled(t: Trial, e: Expectation) {
    Usable(t.c, t.decisions, e.source).Some? &&
    Usable(t.c, t.decisions, e.source).value.status == Auto && e.source !in t.c.sources
  }

  /** One expected field. */
  method ScoreField(t: Trial, e: Expectation, decision: Option<Decision>, proposed: bool) returns (r: Results)
    requires decision == Usable(t.c, t.decisions, e.source) && proposed == (Group(t.decisions, e.source) != [])
    ensures r == FieldResults(t.c, t.decisions, e)
  {
    hide Usable, Group;
    var c := t.c;
    var suggestion, unsafe: seq<Failure>, contract: seq<Failure> := [], [], [];
    var tally := ZERO.(scored := 1);
    if e.target.Some? {
      tally := tally.(mappable := 1);
      if e.source !in c.reviewOnly { tally := tally.(eligible := 1); }
    }
    if decision.None? {
      var failure := Failure(c.id, e.source, e.target, None, None, [MissingDecision]);
      suggestion := [failure];
      tally := tally.(suggestionFailures := 1);
      if !proposed {
        contract := [failure];
        tally := tally.(contractFailures := 1);
      }
      return Results(tally, suggestion, unsafe, contract);
    }
    var d := decision.value;
    if d.target == e.target { tally := tally.(suggested := 1); }
    if d.status == Auto {
      tally := tally.(auto := 1);
      var reasons := [];
      if e.target.None? {
        tally := tally.(onUnmappable := 1);
        reasons := reasons + [AutoOnUnmappable];
      } else if d.target != e.target {
        reasons := reasons + [AutoTargetMismatch];
      }
      if e.source in c.reviewOnly {
        tally := tally.(onReviewOnly := 1);
        reasons := reasons + [AutoOnReviewOnly];
      }
      if !ContractSafe(c, e.source, d.target) {
        tally := tally.(onContract := 1);
        reasons := reasons + [AutoContractMismatch];
      }
      assert reasons == SafetyReasons(c, e, d);
      if reasons == [] {
        tally := tally.(correct := 1);
      } else {
        tally := tally.(incorrect := 1, unsafeFailures := 1);
        unsafe := [Failure(c.id, e.source, e.target, d.target, Some(d.status), reasons)];
      }
    } else if d.status == Review {
      tally := tally.(review := 1);
    } else {
      tally := tally.(blocked := 1);
    }
    if d.target != e.target {
      suggestion := [Failure(c.id, e.source, e.target, d.target, Some(d.status), [TargetMismatch])];
      tally := tally.(suggestionFailures := 1);
    }
    return Results(tally, suggestion, unsafe, contract);
  }

  /** The loop over the expected fields. It raises on an automatic decision for a field outside the source schema. */
  method ScoreFields(t: Trial, bySource: map<string, Decision>, grouped: map<string, seq<Decision>>)
    returns (r: Result<Results>)
    requires forall s :: Usable(t.c, t.decisions, s) == if s in bySource then Some(bySource[s]) else None
    requires forall s :: s in grouped <==> Group(t.decisions, s) != []
    ensures r.Err? <==> exists i :: 0 <= i < |t.c.expected| && Unschooled(t, t.c.expected[i])
    ensures r.Ok? ==> r.value == FieldsResults(t.c, t.decisions, t.c.expected)
  {
    hide Usable, Group, FieldResults, Joined;
    var out := NOTHING;
    for i := 0 to |t.c.expected|
      invariant forall j :: 0 <= j < i ==> !Unschooled(t, t.c.expected[j])
      invariant out == FieldsResults(t.c, t.decisions, t.c.expected[..i])
    {
      var e := t.c.expected[i];
      assert t.c.expected[..i + 1][..i] == t.c.expected[..i];
      var decision := if e.source in bySource then Some(bySource[e.source]) else None;
      if decision.Some? && decision.value.status == Auto && e.source !in t.c.sources {
        assert Unschooled(t, t.c.expected[i]);
        return Err(KeyError);
      }
      assert !Unschooled(t, t.c.expected[i]);
      var one := ScoreField(t, e, decision, e.source in grouped);
      out := Joined(out, one);
    }
    assert t.c.expected[..|t.c.expected|] == t.c.expected;
    return Ok(out);
  }

  /** One case: group, judge, score. */
  method RunCase(t: Trial) returns (r: Result<Results>)
    ensures r.Err? <==> exists i :: 0 <= i < |t.c.expected| && Unschooled(t, t.c.expected[i])
    ensures r.Ok? ==> r.value == CaseResults(t)
  {
    hide Usable, Group, DecisionTallies, FieldsResults, Unschooled, Sources, GroupFailures, Joined;
    var grouped, order := GroupDecisions(t.decisions);
    var bySource, failures, auto := JudgeDecisions(t.c, t.decisions, grouped, order);
    forall s ensures s in grouped <==> Group(t.decisions, s) != [] { assert GroupedAt(t.decisions, grouped, s); }
    r := ScoreFields(t, bySource, grouped);
    if r.Ok? { r := Ok(Joined(Results(Judged(|failures|, auto), [], [], failures), r.value)); }
  }

  /**
   `benchmark_mapping_cases`: the counters are the declarative sums and balance, and every failure
   is listed with the reasons for it.
   */
  method RunCases(ts: seq<Trial>) returns (r: Result<Results>)
    ensures r.Err? <==> exists n, i ::
            0 <= n < |ts| && 0 <= i < |ts[n].c.expected| && Unschooled(ts[n], ts[n].c.expected[i])
    ensures r.Ok? ==> r.value == ReportResults(ts)
    ensures r.Ok? ==> r.value.tally == Report(ts) && Balanced(r.value.tally) && Listed(r.value)
  {
    hide CaseResults, CaseTally, Unschooled, Joined;
    var out := NOTHING;
    for n := 0 to |ts|
      invariant forall m, i :: 0 <= m < n && 0 <= i < |ts[m].c.expected| ==> !Unschooled(ts[m], ts[m].c.expected[i])
      invariant out == ReportResults(ts[..n])
    {
      assert ts[..n + 1][..n] == ts[..n];
      var one := RunCase(ts[n]);
      if one.Err? { return Err(KeyError); }
      out := Joined(out, one.value);
    }
    assert ts[..|ts|] == ts;
    ReportIsListed(ts);
    ReportBalances(ts);
    return Ok(out);
  }
}
