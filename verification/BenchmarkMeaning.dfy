/**
 What the counters and failures of the mapping benchmark mean: each counter is the number of expected fields, or of
 decisions, with a property stated here, and each failure names exactly the rules that are broken.
 */
module BenchmarkMeaning {
  import opened Outcomes
  import opened Benchmark

  // ---------------------------------------------------------------- the rules a decision has to keep

  predicate InUnit(s: Score) {
    s.Finite? && 0.0 <= s.value && s.value <= 1.0
  }

  ghost predicate IsLabelled(c: Case, source: string) {
    exists i :: 0 <= i < |c.expected| && c.expected[i].source == source
  }

  /** The decision can be read and acted upon. */
  ghost predicate Honours(c: Case, d: Decision) {
    && IsLabelled(c, d.source) && InUnit(d.score) && InUnit(d.margin)
    && match d.status
       case Blocked => d.target.None?
       case NoStatus(_) => false
       case _ => d.target.Some? && d.target.value in c.targets
  }

  /** The places at which the matcher decides about a source. */
  ghost function Proposals(ds: seq<Decision>, source: string): set<nat> {
    set i: nat | i < |ds| && ds[i].source == source
  }

  /** The decision breaks this rule of the decision contract. */
  ghost predicate Breaks(c: Case, ds: seq<Decision>, d: Decision, rule: Reason) {
    match rule
    case UnknownSource => !IsLabelled(c, d.source)
    case InvalidStatus => d.status.NoStatus?
    case InvalidScore => !InUnit(d.score)
    case InvalidMargin => !InUnit(d.margin)
    case BlockedHasTarget => d.status == Blocked && d.target.Some?
    case MissingTarget => d.status in {Auto, Review, NoStatus("auto"), NoStatus("review")} && d.target.None?
    case UnknownTarget =>
      d.status in {Auto, Review, NoStatus("auto"), NoStatus("review")} && d.target.Some? && d.target.value !in c.targets
    case DuplicateDecision => |Proposals(ds, d.source)| != 1
    case _ => false
  }

  lemma HonoursIffNoReasons(c: Case, d: Decision)
    ensures ContractReasons(c, d) == [] <==> Honours(c, d)
  {
  }

  lemma ProposalsOfAppended(ds: seq<Decision>, d: Decision, source: string)
    ensures var before, after := Proposals(ds, source), Proposals(ds + [d], source);
            |after| == |before| + (if d.source == source then 1 else 0)
  {
    var before, after, all := Proposals(ds, source), Proposals(ds + [d], source), ds + [d];
    assert forall i: nat :: i in before ==> all[i] == ds[i];
    assert after == if d.source == source then before + {|ds|} else before;
  }

  lemma {:induction false} GroupIsProposals(ds: seq<Decision>, source: string)
    ensures |Group(ds, source)| == |Proposals(ds, source)|
    ensures forall d :: d in Group(ds, source) <==> d in ds && d.source == source
  {
    if ds == [] {
      assert Proposals(ds, source) == {};
    } else {
      var n := |ds| - 1;
      GroupIsProposals(ds[..n], source);
      assert ds == ds[..n] + [ds[n]];
      ProposalsOfAppended(ds[..n], ds[n], source);
      GroupOfAppended(ds[..n], ds[n], source);
      hide Group, Proposals;
    }
  }

  /** All the rules a decision breaks, as the benchmark lists them. */
  function Listing(c: Case, ds: seq<Decision>, d: Decision): seq<Reason> {
    ContractReasons(c, d) + (if |Group(ds, d.source)| != 1 then [DuplicateDecision] else [])
  }

  /** A decision is reported for exactly the rules it breaks. */
  lemma ListingNamesBrokenRules(c: Case, ds: seq<Decision>, d: Decision, rule: Reason)
    ensures rule in Listing(c, ds, d) <==> Breaks(c, ds, d, rule)
    ensures Listing(c, ds, d) == [] <==> Honours(c, d) && |Proposals(ds, d.source)| == 1
  {
    hide Group, Proposals, Honours, ContractReasons;
    GroupIsProposals(ds, d.source);
    HonoursIffNoReasons(c, d);
    ContractReasonsAreRules(c, ds, d, rule);
  }

  lemma ContractReasonsAreRules(c: Case, ds: seq<Decision>, d: Decision, rule: Reason)
    ensures rule in ContractReasons(c, d) <==> rule != DuplicateDecision && Breaks(c, ds, d, rule)
  {
    hide Proposals;
    TargetReasonsAreRules(c, ds, d, rule);
    hide TargetReasons;
  }

  lemma TargetReasonsAreRules(c: Case, ds: seq<Decision>, d: Decision, rule: Reason)
    ensures rule in TargetReasons(c, d) <==>
            rule in {BlockedHasTarget, MissingTarget, UnknownTarget} && Breaks(c, ds, d, rule)
  {
    hide Proposals;
  }

  // ---------------------------------------------------------------- the decision that counts

  /** The only decision about the source, and it honours the contract. */
  ghost predicate Decides(t: Trial, source: string, d: Decision) {
    |Proposals(t.decisions, source)| == 1 && d in t.decisions && d.source == source && Honours(t.c, d)
  }

  lemma UsableIffDecides(t: Trial, source: string, d: Decision)
    ensures Usable(t.c, t.decisions, source) == Some(d) <==> Decides(t, source, d)
  {
    GroupIsProposals(t.decisions, source);
    hide Proposals, Honours, ContractReasons;
    var g := Group(t.decisions, source);
    if |g| == 1 {
      assert g[0] in g;
      HonoursIffNoReasons(t.c, g[0]);
      assert d in g <==> d == g[0];
    }
    hide Group;
  }

  ghost predicate IsDecided(t: Trial, e: Expectation, status: Status) {
    exists d :: Decides(t, e.source, d) && d.status == status
  }

  /** The field is decided, and with the target that is expected. */
  ghost predicate IsSuggested(t: Trial, e: Expectation) {
    exists d :: Decides(t, e.source, d) && d.target == e.target
  }

  predicate TypeSafe(c: Case, source: string, target: Option<string>) {
    target.Some? && target.value in c.targets && c.safe(source, target.value)
  }

  /** The field is mapped automatically, to its expected target, where that is allowed and type-safe. */
  ghost predicate IsRight(t: Trial, e: Expectation) {
    && e.target.Some? && e.source !in t.c.reviewOnly && TypeSafe(t.c, e.source, e.target)
    && exists d :: Decides(t, e.source, d) && d.status == Auto && d.target == e.target
  }

  ghost predicate IsUnsafelyTyped(t: Trial, e: Expectation) {
    exists d :: Decides(t, e.source, d) && d.status == Auto && !TypeSafe(t.c, e.source, d.target)
  }

  /** The automatic decision `d` about the field is wrong in this way. */
  predicate IsWrong(t: Trial, e: Expectation, d: Decision, rule: Reason) {
    match rule
    case AutoOnUnmappable => e.target.None?
    case AutoTargetMismatch => e.target.Some? && d.target != e.target
    case AutoOnReviewOnly => e.source in t.c.reviewOnly
    case AutoContractMismatch => !TypeSafe(t.c, e.source, d.target)
    case _ => false
  }

  lemma SafetyReasonsAreRules(t: Trial, e: Expectation, d: Decision, rule: Reason)
    ensures rule in SafetyReasons(t.c, e, d) <==> IsWrong(t, e, d, rule)
    ensures SafetyReasons(t.c, e, d) == [] <==>
            && e.target.Some? && d.target == e.target
            && e.source !in t.c.reviewOnly && TypeSafe(t.c, e.source, e.target)
  {
  }

  // ---------------------------------------------------------------- what one field contributes

  lemma OnlyOneDecides(t: Trial, source: string)
    ensures forall d :: Decides(t, source, d) <==> Usable(t.c, t.decisions, source) == Some(d)
  {
    forall d ensures Decides(t, source, d) <==> Usable(t.c, t.decisions, source) == Some(d) {
      UsableIffDecides(t, source, d);
    }
  }

  function Bit(b: bool): nat { if b then 1 else 0 }

  /** The counters of one field, told by the properties above. */
  lemma FieldMeans(t: Trial, e: Expectation)
    ensures var f := FieldTally(t.c, t.decisions, e);
            && f.scored == 1 && f.mappable == Bit(e.target.Some?)
            && f.eligible == Bit(e.target.Some? && e.source !in t.c.reviewOnly)
            && f.suggested == Bit(IsSuggested(t, e)) && f.suggestionFailures == Bit(!IsSuggested(t, e))
            && f.auto == Bit(IsDecided(t, e, Auto)) && f.correct == Bit(IsRight(t, e))
            && f.incorrect == f.unsafeFailures == Bit(IsDecided(t, e, Auto) && !IsRight(t, e))
            && f.review == Bit(IsDecided(t, e, Review)) && f.blocked == Bit(IsDecided(t, e, Blocked))
            && f.onUnmappable == Bit(IsDecided(t, e, Auto) && e.target.None?)
            && f.onReviewOnly == Bit(IsDecided(t, e, Auto) && e.source in t.c.reviewOnly)
            && f.onContract == Bit(IsUnsafelyTyped(t, e))
            && f.onInvalid == 0 && f.contractFailures == Bit(Proposals(t.decisions, e.source) == {})
  {
    OnlyOneDecides(t, e.source);
    GroupIsProposals(t.decisions, e.source);
    NoProposals(t.decisions, e.source);
    var u := Usable(t.c, t.decisions, e.source);
    if u.Some? {
      assert Decides(t, e.source, u.value);
      SafetyReasonsAreRules(t, e, u.value, AutoOnUnmappable);
      DecidedHasStatus(t, e.source, u.value);
    }
    hide Decides, Usable, Group, Proposals, SafetyReasons, TypeSafe, ContractSafe;
    SafelyTyped(t, e);
  }

  lemma NoProposals(ds: seq<Decision>, source: string)
    ensures Proposals(ds, source) == {} <==> |Group(ds, source)| == 0
  {
    GroupIsProposals(ds, source);
  }

  lemma DecidedHasStatus(t: Trial, source: string, d: Decision)
    requires Decides(t, source, d)
    ensures d.status in {Auto, Review, Blocked}
  {
  }

  lemma SafelyTyped(t: Trial, e: Expectation)
    ensures forall target :: TypeSafe(t.c, e.source, target) <==> ContractSafe(t.c, e.source, target)
  {
  }

  /** A decision the benchmark cannot use. */
  ghost predicate IsUnusable(t: Trial, d: Decision) {
    !Honours(t.c, d) || |Proposals(t.decisions, d.source)| != 1
  }

  lemma DecisionMeans(t: Trial, d: Decision)
    ensures var x := DecisionTally(t.c, t.decisions, d);
            && x.contractFailures == Bit(IsUnusable(t, d))
            && x.auto == x.incorrect == x.onInvalid == Bit(IsUnusable(t, d) && d.status == Auto)
            && x.scored == x.mappable == x.eligible == x.correct == x.review == x.blocked == x.suggested == 0
            && x.onUnmappable == x.onReviewOnly == x.onContract == x.suggestionFailures == x.unsafeFailures == 0
  {
    HonoursIffNoReasons(t.c, d);
    GroupIsProposals(t.decisions, d.source);
    hide Honours, Proposals, Group, ContractReasons;
  }

  // ---------------------------------------------------------------- what the report counts

  /** The counters of the report. */
  datatype Counter =
    | FieldsScored | MappableFields | EligibleFields | AutoDecisions | AutoCorrect | AutoIncorrect | ReviewDecisions
    | BlockedDecisions | SuggestionCorrect | SuggestionFailures | OnUnmappable | OnReviewOnly | OnContractMismatch
    | OnInvalidOutput | UnsafeFailures | ContractFailures

  function Read(x: Tally, k: Counter): nat {
    match k
    case FieldsScored => x.scored
    case MappableFields => x.mappable
    case EligibleFields => x.eligible
    case AutoDecisions => x.auto
    case AutoCorrect => x.correct
    case AutoIncorrect => x.incorrect
    case ReviewDecisions => x.review
    case BlockedDecisions => x.blocked
    case SuggestionCorrect => x.suggested
    case SuggestionFailures => x.suggestionFailures
    case OnUnmappable => x.onUnmappable
    case OnReviewOnly => x.onReviewOnly
    case OnContractMismatch => x.onContract
    case OnInvalidOutput => x.onInvalid
    case UnsafeFailures => x.unsafeFailures
    case ContractFailures => x.contractFailures
  }

  /** The fields a counter counts. */
  ghost predicate CountsField(k: Counter, t: Trial, e: Expectation) {
    match k
    case FieldsScored => true
    case MappableFields => e.target.Some?
    case EligibleFields => e.target.Some? && e.source !in t.c.reviewOnly
    case AutoDecisions => IsDecided(t, e, Auto)
    case AutoCorrect => IsRight(t, e)
    case AutoIncorrect => IsDecided(t, e, Auto) && !IsRight(t, e)
    case ReviewDecisions => IsDecided(t, e, Review)
    case BlockedDecisions => IsDecided(t, e, Blocked)
    case SuggestionCorrect => IsSuggested(t, e)
    case SuggestionFailures => !IsSuggested(t, e)
    case OnUnmappable => IsDecided(t, e, Auto) && e.target.None?
    case OnReviewOnly => IsDecided(t, e, Auto) && e.source in t.c.reviewOnly
    case OnContractMismatch => IsUnsafelyTyped(t, e)
    case OnInvalidOutput => false
    case UnsafeFailures => IsDecided(t, e, Auto) && !IsRight(t, e)
    case ContractFailures => Proposals(t.decisions, e.source) == {}
  }

  /** The decisions a counter counts besides. */
  ghost predicate CountsDecision(k: Counter, t: Trial, d: Decision) {
    match k
    case AutoDecisions => IsUnusable(t, d) && d.status == Auto
    case AutoIncorrect => IsUnusable(t, d) && d.status == Auto
    case OnInvalidOutput => IsUnusable(t, d) && d.status == Auto
    case ContractFailures => IsUnusable(t, d)
    case _ => false
  }

  ghost function FieldsOf(k: Counter, t: Trial, es: seq<Expectation>): nat {
    if es == [] then 0 else FieldsOf(k, t, es[..|es| - 1]) + Bit(CountsField(k, t, es[|es| - 1]))
  }

  ghost function DecisionsOf(k: Counter, t: Trial, ds: seq<Decision>): nat {
    if ds == [] then 0 else DecisionsOf(k, t, ds[..|ds| - 1]) + Bit(CountsDecision(k, t, ds[|ds| - 1]))
  }

  /** The number of fields and decisions in all trials that a counter counts. */
  ghost function NumberOf(k: Counter, ts: seq<Trial>): nat {
    if ts == [] then 0
    else
      var t := ts[|ts| - 1];
      NumberOf(k, ts[..|ts| - 1]) + FieldsOf(k, t, t.c.expected) + DecisionsOf(k, t, t.decisions)
  }

  lemma ReadAdds(a: Tally, b: Tally, k: Counter)
    ensures Read(Plus(a, b), k) == Read(a, k) + Read(b, k) && Read(ZERO, k) == 0
  {
  }

  lemma FieldIsCounted(k: Counter, t: Trial, e: Expectation)
    ensures Read(FieldTally(t.c, t.decisions, e), k) == Bit(CountsField(k, t, e))
  {
    hide FieldTally, IsDecided, IsRight, IsSuggested, IsUnsafelyTyped, Proposals;
    FieldMeans(t, e);
  }

  lemma DecisionIsCounted(k: Counter, t: Trial, d: Decision)
    ensures Read(DecisionTally(t.c, t.decisions, d), k) == Bit(CountsDecision(k, t, d))
  {
    hide DecisionTally, IsUnusable;
    DecisionMeans(t, d);
  }

  lemma {:induction false} FieldsAreCounted(k: Counter, t: Trial, es: seq<Expectation>)
    ensures Read(FieldTallies(t.c, t.decisions, es), k) == FieldsOf(k, t, es)
  {
    hide FieldTally, CountsField, Plus, Read;
    ReadAdds(ZERO, ZERO, k);
    if es != [] {
      var n := |es| - 1;
      FieldsAreCounted(k, t, es[..n]);
      FieldIsCounted(k, t, es[n]);
      ReadAdds(FieldTallies(t.c, t.decisions, es[..n]), FieldTally(t.c, t.decisions, es[n]), k);
    }
  }

  lemma {:induction false} DecisionsAreCounted(k: Counter, t: Trial, ds: seq<Decision>)
    ensures Read(DecisionTallies(t.c, t.decisions, ds), k) == DecisionsOf(k, t, ds)
  {
    hide DecisionTally, CountsDecision, Plus, Read;
    ReadAdds(ZERO, ZERO, k);
    if ds != [] {
      var n := |ds| - 1;
      DecisionsAreCounted(k, t, ds[..n]);
      DecisionIsCounted(k, t, ds[n]);
      ReadAdds(DecisionTallies(t.c, t.decisions, ds[..n]), DecisionTally(t.c, t.decisions, ds[n]), k);
    }
  }

  /**
   The report of every corpus and every matcher: each counter is the number of fields and decisions that it is said
   to count. In particular an automatic decision counts as correct exactly when it is the only one for its field,
   honours the contract, has the expected target, and is allowed and type-safe there.
   */
  lemma {:induction false} ReportMeans(k: Counter, ts: seq<Trial>)
    ensures Read(Report(ts), k) == NumberOf(k, ts)
  {
    hide FieldTallies, DecisionTallies, FieldsOf, DecisionsOf, Plus, Read;
    ReadAdds(ZERO, ZERO, k);
    if ts != [] {
      var t := ts[|ts| - 1];
      ReportMeans(k, ts[..|ts| - 1]);
      FieldsAreCounted(k, t, t.c.expected);
      DecisionsAreCounted(k, t, t.decisions);
      ReadAdds(DecisionTallies(t.c, t.decisions, t.decisions), FieldTallies(t.c, t.decisions, t.c.expected), k);
      ReadAdds(Report(ts[..|ts| - 1]), CaseTally(t), k);
    }
  }

  // ---------------------------------------------------------------- what the report's failures say

  /** The failure is about the unsafe automatic decision for the field, and names all that is wrong with it. */
  ghost predicate NamesUnsafe(t: Trial, e: Expectation, f: Failure) {
    exists d :: Decides(t, e.source, d) && NamesWrongs(t, e, d, f)
  }

  ghost predicate NamesWrongs(t: Trial, e: Expectation, d: Decision, f: Failure) {
    && d.status == Auto && f.caseId == t.c.id && f.source == e.source && f.expected == e.target && f.actual == d.target
    && f.status == Some(Auto)
    && (forall rule :: rule in f.reasons <==> IsWrong(t, e, d, rule))
  }

  lemma UnsafeFieldIsNamed(t: Trial, e: Expectation)
    ensures var unsafe := FieldResults(t.c, t.decisions, e).unsafe;
            if CountsField(UnsafeFailures, t, e) then |unsafe| == 1 && NamesUnsafe(t, e, unsafe[0]) else unsafe == []
  {
    OnlyOneDecides(t, e.source);
    var u := Usable(t.c, t.decisions, e.source);
    if u.Some? {
      var d := u.value;
      assert Decides(t, e.source, d);
      SafetyReasonsAreRules(t, e, d, AutoOnUnmappable);
      var f := Failure(t.c.id, e.source, e.target, d.target, Some(d.status), SafetyReasons(t.c, e, d));
      forall rule ensures rule in f.reasons <==> IsWrong(t, e, d, rule) { SafetyReasonsAreRules(t, e, d, rule); }
      hide Decides, Usable, SafetyReasons, TypeSafe, IsWrong, FieldTally, Group;
      assert d.status == Auto ==> NamesWrongs(t, e, d, f);
    } else {
      hide Decides, Usable, FieldTally, Group;
    }
  }

  /** The failures are those of the unsafe fields, one each, in order. */
  ghost predicate NamesThem(t: Trial, es: seq<Expectation>, fs: seq<Failure>)
    decreases |es|
  {
    if es == [] then fs == []
    else
      var n := |es| - 1;
      if CountsField(UnsafeFailures, t, es[n]) then
        fs != [] && NamesUnsafe(t, es[n], fs[|fs| - 1]) && NamesThem(t, es[..n], fs[..|fs| - 1])
      else
        NamesThem(t, es[..n], fs)
  }

  lemma {:induction false} UnsafeFieldsAreNamed(t: Trial, es: seq<Expectation>)
    ensures NamesThem(t, es, FieldsResults(t.c, t.decisions, es).unsafe)
    decreases |es|
  {
    hide FieldResults, FieldsResults, NamesUnsafe, CountsField, NamesThem;
    if es == [] {
      NoFields(t);
    } else {
      var n := |es| - 1;
      UnsafeFieldsAreNamed(t, es[..n]);
      UnsafeFieldIsNamed(t, es[n]);
      UnsafeOfFields(t, es);
      NamesThemStep(t, es, FieldsResults(t.c, t.decisions, es[..n]).unsafe, FieldsResults(t.c, t.decisions, es).unsafe);
    }
  }

  lemma NoFields(t: Trial)
    ensures NamesThem(t, [], FieldsResults(t.c, t.decisions, []).unsafe)
  {
  }

  lemma UnsafeOfFields(t: Trial, es: seq<Expectation>)
    requires es != []
    ensures FieldsResults(t.c, t.decisions, es).unsafe ==
            FieldsResults(t.c, t.decisions, es[..|es| - 1]).unsafe + FieldResults(t.c, t.decisions, es[|es| - 1]).unsafe
  {
    hide FieldResults, Plus;
  }

  lemma NamesThemStep(t: Trial, es: seq<Expectation>, before: seq<Failure>, all: seq<Failure>)
    requires es != [] && NamesThem(t, es[..|es| - 1], before)
    requires if CountsField(UnsafeFailures, t, es[|es| - 1]) then
               |all| == |before| + 1 && before <= all && NamesUnsafe(t, es[|es| - 1], all[|before|])
             else all == before
    ensures NamesThem(t, es, all)
  {
    hide NamesUnsafe, CountsField;
    assert |all| == |before| + 1 && before <= all ==> all[..|all| - 1] == before;
  }

  /** The unsafe failures of a case, then of the next. */
  ghost predicate NamesAll(ts: seq<Trial>, fs: seq<Failure>)
    decreases |ts|
  {
    if ts == [] then fs == []
    else
      var t := ts[|ts| - 1];
      exists k :: 0 <= k <= |fs| && NamesAll(ts[..|ts| - 1], fs[..k]) && NamesThem(t, t.c.expected, fs[k..])
  }

  /** The unsafe failures of the report name exactly what is wrong with each unsafe automatic decision, and no other. */
  lemma {:induction false} ReportNamesUnsafe(ts: seq<Trial>)
    ensures NamesAll(ts, ReportResults(ts).unsafe)
    decreases |ts|
  {
    hide FieldsResults, NamesThem, GroupFailures, DecisionTallies, Plus, Sources;
    if ts != [] {
      var t := ts[|ts| - 1];
      ReportNamesUnsafe(ts[..|ts| - 1]);
      UnsafeFieldsAreNamed(t, t.c.expected);
      var before, own := ReportResults(ts[..|ts| - 1]).unsafe, FieldsResults(t.c, t.decisions, t.c.expected).unsafe;
      var fs := ReportResults(ts).unsafe;
      assert fs == before + ([] + own);
      assert fs[..|before|] == before && fs[|before|..] == own;
    }
  }

  /** A field that is not suggested has one suggestion failure, which says what was suggested, or that nothing was. */
  lemma MissedFieldIsNamed(t: Trial, e: Expectation)
    ensures var fs := FieldResults(t.c, t.decisions, e).suggestions;
            if IsSuggested(t, e) then fs == []
            else
              && |fs| == 1 && fs[0].caseId == t.c.id && fs[0].source == e.source && fs[0].expected == e.target
              && (forall d :: Decides(t, e.source, d) ==>
                    fs[0].actual == d.target && fs[0].status == Some(d.status) && fs[0].reasons == [TargetMismatch])
              && ((forall d :: !Decides(t, e.source, d)) ==>
                    fs[0].actual == None && fs[0].status == None && fs[0].reasons == [MissingDecision])
  {
    OnlyOneDecides(t, e.source);
    var u := Usable(t.c, t.decisions, e.source);
    assert u.Some? ==> Decides(t, e.source, u.value);
    hide Decides, Usable, Group, SafetyReasons, FieldTally;
  }

  /** A reported decision is unusable, and the report names all the rules it breaks. */
  ghost predicate NamesBroken(t: Trial, d: Decision, f: Failure) {
    && f.caseId == t.c.id && f.source == d.source && f.actual == d.target && f.status == Some(d.status)
    && f.expected == ExpectedTarget(t.c.expected, d.source)
    && (forall rule :: rule in f.reasons <==> Breaks(t.c, t.decisions, d, rule))
  }

  /** One failure for each unusable decision of a group, in order. */
  ghost predicate NamesGroup(t: Trial, xs: seq<Decision>, fs: seq<Failure>)
    decreases |xs|
  {
    if xs == [] then fs == []
    else
      var n := |xs| - 1;
      if IsUnusable(t, xs[n]) then
        fs != [] && NamesBroken(t, xs[n], fs[|fs| - 1]) && NamesGroup(t, xs[..n], fs[..|fs| - 1])
      else
        NamesGroup(t, xs[..n], fs)
  }

  lemma {:induction false} GroupNamesBroken(t: Trial, xs: seq<Decision>)
    ensures NamesGroup(t, xs, DecisionFailures(t.c, t.decisions, xs))
    decreases |xs|
  {
    if xs != [] {
      var n := |xs| - 1;
      var d := xs[n];
      GroupNamesBroken(t, xs[..n]);
      var before, all := DecisionFailures(t.c, t.decisions, xs[..n]), DecisionFailures(t.c, t.decisions, xs);
      var listing := Listing(t.c, t.decisions, d);
      forall rule ensures rule in listing <==> Breaks(t.c, t.decisions, d, rule) {
        ListingNamesBrokenRules(t.c, t.decisions, d, rule);
      }
      ListingNamesBrokenRules(t.c, t.decisions, d, InvalidStatus);
      hide ContractReasons, Group, Proposals, Honours, Breaks, ExpectedTarget, NamesGroup;
      if listing == [] {
        assert all == before;
      } else {
        assert all[..|all| - 1] == before;
      }
      NamesGroupStep(t, xs, before, all);
    }
  }

  lemma NamesGroupStep(t: Trial, xs: seq<Decision>, before: seq<Failure>, all: seq<Failure>)
    requires xs != [] && NamesGroup(t, xs[..|xs| - 1], before)
    requires if IsUnusable(t, xs[|xs| - 1]) then
               all != [] && NamesBroken(t, xs[|xs| - 1], all[|all| - 1]) && all[..|all| - 1] == before
             else all == before
    ensures NamesGroup(t, xs, all)
  {
    hide NamesBroken, IsUnusable;
  }

  /** The expected target of a labelled source is that of its first label. */
  lemma {:induction false} ExpectedTargetIsFirst(es: seq<Expectation>, i: nat)
    requires i < |es| && forall j :: 0 <= j < i ==> es[j].source != es[i].source
    ensures ExpectedTarget(es, es[i].source) == es[i].target
  {
    if i > 0 { ExpectedTargetIsFirst(es[1..], i - 1); }
  }
}
