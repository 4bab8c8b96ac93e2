/** The deterministic override layer over a model's risk proposal: eleven ordered mutations of a working
    record that only tighten it (runtime/agents/src/thymira/agents/risk.py). */
module RiskOverrides {
  import opened Options
  import opened Unique

  datatype Level = UnknownLevel | Low | Medium | High | Critical

  function Rank(l: Level): nat {
    match l
    case UnknownLevel => 0
    case Low => 1
    case Medium => 2
    case High => 3
    case Critical => 4
  }

  function HigherOf(a: Level, b: Level): Level {
    if Rank(b) > Rank(a) then b else a
  }

  datatype Category =
    | DecisionSupport
    | AutomatedDecision
    | Deployment
    | ModelDevelopment
    | UnknownActivity
    | OtherActivity(name: string)

  datatype RiskFacts = RiskFacts(
    hasSensitiveAttributes: bool,
    affectsNaturalPersons: bool,
    missingRequired: seq<string>,
    presentContext: seq<string>,
    declaredLevel: Level,
    answerable: seq<string>)

  /** The model's proposal. */
  datatype Classification = Classification(
    level: Level,
    category: Category,
    factors: seq<string>,
    missing: seq<string>,
    needsReview: bool)

  /** The overrides, in application order. */
  datatype Override =
    | ObservedMissingInformation
    | ConsequentialContextRequired
    | UnknownRiskReview
    | UnknownActivityReview
    | IncompleteInformationReview
    | SensitiveAttributeFactor
    | SensitiveAttributeReview
    | PersonImpactFactor
    | PersonImpactReview
    | DeclaredRiskUnderdeclaration
    | InherentRiskFloor

  const OVERRIDE_IDS := [
    ObservedMissingInformation, ConsequentialContextRequired, UnknownRiskReview, UnknownActivityReview,
    IncompleteInformationReview, SensitiveAttributeFactor, SensitiveAttributeReview, PersonImpactFactor,
    PersonImpactReview, DeclaredRiskUnderdeclaration, InherentRiskFloor]

  datatype Note =
    | UnanswerableDropped(names: seq<string>)
    | ObservedAdded(names: seq<string>)
    | ContextRequired(names: seq<string>)
    | SensitiveFactorAdded
    | PersonFactorAdded
    | MinimalRiskConflicts
    | MaterialDifference(declared: Level, classified: Level)
    | FloorRaised(from: Level, to: Level)

  const SENSITIVE_FACTOR := "sensitive_attributes"
  const PERSON_FACTOR := "affects_natural_persons"
  const BASE_CONTEXT := ["intended_use", "decision_role", "deployment_context"]
  const OVERSIGHT := "human_oversight"
  const CONSEQUENCES := "potential_consequences"
  const POPULATION := "affected_population"

  function KeepIn(names: seq<string>, known: seq<string>): (r: seq<string>)
    ensures forall n :: n in r <==> n in names && n in known
  {
    if names == [] then []
    else (if names[0] in known then [names[0]] else []) + KeepIn(names[1..], known)
  }

  function KeepOut(names: seq<string>, known: seq<string>): (r: seq<string>)
    ensures forall n :: n in r <==> n in names && n !in known
  {
    if names == [] then []
    else (if names[0] in known then [] else [names[0]]) + KeepOut(names[1..], known)
  }

  function RequiredContext(facts: RiskFacts, category: Category): seq<string> {
    var consequential := category.DecisionSupport? || category.AutomatedDecision? || category.Deployment?;
    if !facts.affectsNaturalPersons && !consequential && !category.ModelDevelopment? then []
    else if facts.affectsNaturalPersons then BASE_CONTEXT + [POPULATION, OVERSIGHT, CONSEQUENCES]
    else if consequential then BASE_CONTEXT + [OVERSIGHT, CONSEQUENCES]
    else BASE_CONTEXT
  }

  predicate IsMaterialDifference(declared: Level, classified: Level) {
    && !declared.UnknownLevel? && !classified.UnknownLevel?
    && (Rank(classified) > Rank(declared) || Rank(declared) - Rank(classified) >= 2)
  }

  /** Known levels differ materially when the classified one is higher, or two or more ranks lower. */
  lemma MaterialDifferences(declared: Level, classified: Level)
    ensures IsMaterialDifference(declared, classified) <==>
      (declared, classified) in {
        (Low, Medium), (Low, High), (Low, Critical), (Medium, High), (Medium, Critical), (High, Critical),
        (High, Low), (Critical, Low), (Critical, Medium)}
  {
  }

  // ---- The record and its mutations ----

  datatype Outcome = Outcome(
    level: Level, factors: seq<string>, missing: seq<string>, review: bool,
    notes: seq<Note>, fired: seq<Override>, unanswerable: seq<string>)

  /** The missing names after the normalisation and the two overrides that add to them. */
  function Bounded(facts: RiskFacts, proposed: seq<string>): seq<string> {
    if facts.answerable == [] then proposed else KeepIn(proposed, facts.answerable)
  }

  function Unanswerable(facts: RiskFacts, proposed: seq<string>): seq<string> {
    if facts.answerable == [] then [] else KeepOut(proposed, facts.answerable)
  }

  function DroppedNotes(facts: RiskFacts, proposed: seq<string>): seq<Note> {
    if Unanswerable(facts, proposed) == [] then [] else [UnanswerableDropped(Unanswerable(facts, proposed))]
  }

  function WithObserved(facts: RiskFacts, missing: seq<string>): seq<string> {
    missing + KeepOut(facts.missingRequired, missing)
  }

  function AbsentContext(facts: RiskFacts, category: Category, missing: seq<string>): seq<string> {
    KeepOut(KeepOut(RequiredContext(facts, category), facts.presentContext), missing)
  }

  function BoundedMissing(facts: RiskFacts, output: Classification): seq<string> {
    Bounded(facts, FirstOccurrences([], output.missing))
  }

  function FinalMissing(facts: RiskFacts, output: Classification): seq<string> {
    var observed := WithObserved(facts, BoundedMissing(facts, output));
    observed + AbsentContext(facts, output.category, observed)
  }

  function WithFactor(factors: seq<string>, condition: bool, factor: string): seq<string> {
    if condition && factor !in factors then factors + [factor] else factors
  }

  class Working {
    var level: Level
    var factors: seq<string>
    var missing: seq<string>
    var review: bool
    var notes: seq<Note>
    var fired: seq<Override>
    var unanswerable: seq<string>

    constructor (output: Classification)
      ensures Now() == Outcome(output.level, FirstOccurrences([], output.factors),
                               FirstOccurrences([], output.missing), output.needsReview, [], [], [])
    {
      level, review := output.level, output.needsReview;
      factors, missing := FirstOccurrences([], output.factors), FirstOccurrences([], output.missing);
      notes, fired, unanswerable := [], [], [];
    }

    function Now(): Outcome
      reads this
    {
      Outcome(level, factors, missing, review, notes, fired, unanswerable)
    }

    method BoundMissingInformation(facts: RiskFacts)
      modifies this
      ensures missing == Bounded(facts, old(missing))
      ensures unanswerable == old(unanswerable) + Unanswerable(facts, old(missing))
      ensures notes == old(notes) + DroppedNotes(facts, old(missing))
      ensures level == old(level) && factors == old(factors) && review == old(review) && fired == old(fired)
    {
      if facts.answerable == [] {
        return;
      }
      var dropped := KeepOut(missing, facts.answerable);
      if dropped != [] {
        missing := KeepIn(missing, facts.answerable);
        unanswerable := unanswerable + dropped;
        notes := notes + [UnanswerableDropped(dropped)];
      } else {
        KeepInAll(missing, facts.answerable);
      }
    }

    method OverrideObservedMissingInformation(facts: RiskFacts)
      modifies this
      ensures missing == WithObserved(facts, old(missing))
      ensures fired == old(fired) + if missing != old(missing) then [ObservedMissingInformation] else []
      ensures notes == old(notes)
        + if missing != old(missing) then [ObservedAdded(KeepOut(facts.missingRequired, old(missing)))] else []
      ensures level == old(level) && factors == old(factors) && review == old(review)
           && unanswerable == old(unanswerable)
    {
      var omitted := KeepOut(facts.missingRequired, missing);
      if omitted != [] {
        missing := missing + omitted;
        notes := notes + [ObservedAdded(omitted)];
        fired := fired + [ObservedMissingInformation];
        assert |missing| > |old(missing)|;
      }
    }

    method OverrideConsequentialContextRequired(facts: RiskFacts, output: Classification)
      modifies this
      ensures missing == old(missing) + AbsentContext(facts, output.category, old(missing))
      ensures fired == old(fired) + if missing != old(missing) then [ConsequentialContextRequired] else []
      ensures notes == old(notes)
        + if missing != old(missing) then [ContextRequired(AbsentContext(facts, output.category, old(missing)))] else []
      ensures level == old(level) && factors == old(factors) && review == old(review)
           && unanswerable == old(unanswerable)
    {
      var absent := AbsentContext(facts, output.category, missing);
      if absent != [] {
        missing := missing + absent;
        notes := notes + [ContextRequired(absent)];
        fired := fired + [ConsequentialContextRequired];
        assert |missing| > |old(missing)|;
      }
    }

    /** The shape shared by the overrides that can only ask for review. */
    method ForceReview(id: Override, condition: bool, note: Option<Note>)
      modifies this`review, this`fired, this`notes
      ensures review == (old(review) || condition)
      ensures fired == old(fired) + if condition then [id] else []
      ensures notes == old(notes) + if condition && note.Some? then [note.value] else []
    {
      if condition {
        review := true;
        if note.Some? {
          notes := notes + [note.value];
        }
        fired := fired + [id];
      }
    }

    /** The shape shared by the overrides that add a canonical factor. */
    method RequireFactor(id: Override, condition: bool, factor: string, note: Note)
      modifies this`factors, this`fired, this`notes
      ensures factors == WithFactor(old(factors), condition, factor)
      ensures fired == old(fired) + if condition && factor !in old(factors) then [id] else []
      ensures notes == old(notes) + if condition && factor !in old(factors) then [note] else []
    {
      if condition && factor !in factors {
        factors := factors + [factor];
        notes := notes + [note];
        fired := fired + [id];
      }
    }

    method OverrideInherentRiskFloor(assessment: Option<Level>)
      modifies this`level, this`review, this`fired, this`notes
      ensures assessment.Some? ==> level == HigherOf(old(level), assessment.value)
      ensures assessment.None? ==> level == old(level)
      ensures review == (old(review) || level != old(level))
      ensures fired == old(fired) + if level != old(level) then [InherentRiskFloor] else []
      ensures notes == old(notes) + if level != old(level) then [FloorRaised(old(level), level)] else []
    {
      if assessment.Some? && Rank(assessment.value) > Rank(level) {
        notes := notes + [FloorRaised(level, assessment.value)];
        level := assessment.value;
        review := true;
        fired := fired + [InherentRiskFloor];
      }
    }
  }

  lemma {:induction false} KeepInAll(names: seq<string>, known: seq<string>)
    requires KeepOut(names, known) == []
    ensures KeepIn(names, known) == names
  {
    if names != [] { KeepInAll(names[1..], known); }
  }

  // ---- When each override applies, read off the inputs ----

  predicate LacksObserved(facts: RiskFacts, missing: seq<string>) {
    exists n :: n in facts.missingRequired && n !in missing
  }

  predicate LacksContext(facts: RiskFacts, category: Category, missing: seq<string>) {
    exists n :: n in RequiredContext(facts, category) && n !in facts.presentContext && n !in missing
  }

  predicate Fires(id: Override, facts: RiskFacts, output: Classification, assessment: Option<Level>) {
    match id
    case ObservedMissingInformation => LacksObserved(facts, BoundedMissing(facts, output))
    case ConsequentialContextRequired =>
      LacksContext(facts, output.category, WithObserved(facts, BoundedMissing(facts, output)))
    case UnknownRiskReview => output.level.UnknownLevel?
    case UnknownActivityReview => output.category.UnknownActivity?
    case IncompleteInformationReview => FinalMissing(facts, output) != []
    case SensitiveAttributeFactor => facts.hasSensitiveAttributes && SENSITIVE_FACTOR !in output.factors
    case SensitiveAttributeReview => facts.hasSensitiveAttributes
    case PersonImpactFactor => facts.affectsNaturalPersons && PERSON_FACTOR !in output.factors
    case PersonImpactReview => facts.affectsNaturalPersons && Rank(output.level) <= Rank(Low)
    case DeclaredRiskUnderdeclaration => IsMaterialDifference(facts.declaredLevel, output.level)
    case InherentRiskFloor => assessment.Some? && Rank(assessment.value) > Rank(output.level)
  }

  function FiringFrom(
    ids: seq<Override>, facts: RiskFacts, output: Classification, assessment: Option<Level>): seq<Override>
  {
    if ids == [] then []
    else FiringFrom(ids[..|ids| - 1], facts, output, assessment)
         + if Fires(ids[|ids| - 1], facts, output, assessment) then [ids[|ids| - 1]] else []
  }

  /** What an override notes when it fires. */
  function NotesOf(id: Override, facts: RiskFacts, output: Classification, assessment: Option<Level>): seq<Note> {
    match id
    case ObservedMissingInformation => [ObservedAdded(KeepOut(facts.missingRequired, BoundedMissing(facts, output)))]
    case ConsequentialContextRequired =>
      [ContextRequired(AbsentContext(facts, output.category, WithObserved(facts, BoundedMissing(facts, output))))]
    case SensitiveAttributeFactor => [SensitiveFactorAdded]
    case PersonImpactFactor => [PersonFactorAdded]
    case PersonImpactReview => [MinimalRiskConflicts]
    case DeclaredRiskUnderdeclaration => [MaterialDifference(facts.declaredLevel, output.level)]
    case InherentRiskFloor => [FloorRaised(output.level, assessment.GetOr(output.level))]
    case _ => []
  }

  function NotesFor(
    ids: seq<Override>, facts: RiskFacts, output: Classification, assessment: Option<Level>): seq<Note>
  {
    if ids == [] then []
    else NotesFor(ids[..|ids| - 1], facts, output, assessment) + NotesOf(ids[|ids| - 1], facts, output, assessment)
  }

  /** The note of the normalisation, then those of the fired overrides, in order. */
  predicate NotesAsFired(o: Outcome, facts: RiskFacts, output: Classification, assessment: Option<Level>) {
    o.notes == DroppedNotes(facts, FirstOccurrences([], output.missing)) + NotesFor(o.fired, facts, output, assessment)
  }

  /** The whole outcome, as the properties speak of it. */
  ghost predicate IsOutcome(o: Outcome, facts: RiskFacts, output: Classification, assessment: Option<Level>) {
    && o.level == (if assessment.Some? then HigherOf(output.level, assessment.value) else output.level)
    && o.factors == WithFactor(
                      WithFactor(FirstOccurrences([], output.factors), facts.hasSensitiveAttributes, SENSITIVE_FACTOR),
                      facts.affectsNaturalPersons, PERSON_FACTOR)
    && (forall f :: f in o.factors <==>
          || f in output.factors
          || (f == SENSITIVE_FACTOR && facts.hasSensitiveAttributes)
          || (f == PERSON_FACTOR && facts.affectsNaturalPersons))
    && o.missing == FinalMissing(facts, output)
    && (o.review <==> output.needsReview || exists id :: Fires(id, facts, output, assessment) && ForcesReview(id))
    && o.fired == FiringFrom(OVERRIDE_IDS, facts, output, assessment)
    && o.unanswerable == Unanswerable(facts, FirstOccurrences([], output.missing))
    && NotesAsFired(o, facts, output, assessment)
  }

  /** The overrides that force review whenever they fire; the others add a name or a factor. */
  predicate ForcesReview(id: Override) {
    !id.ObservedMissingInformation? && !id.ConsequentialContextRequired?
    && !id.SensitiveAttributeFactor? && !id.PersonImpactFactor?
  }

  lemma FiringStep(k: nat, facts: RiskFacts, output: Classification, assessment: Option<Level>)
    requires k < 11
    ensures FiringFrom(OVERRIDE_IDS[..k + 1], facts, output, assessment)
         == FiringFrom(OVERRIDE_IDS[..k], facts, output, assessment)
            + if Fires(OVERRIDE_IDS[k], facts, output, assessment) then [OVERRIDE_IDS[k]] else []
  {
    assert OVERRIDE_IDS[..k + 1][..k] == OVERRIDE_IDS[..k];
  }

  /** Whether a review is due from the first `k` overrides or the proposal itself. */
  ghost predicate ReviewDue(k: nat, facts: RiskFacts, output: Classification, assessment: Option<Level>)
    requires k <= 11
  {
    || output.needsReview
    || exists i :: 0 <= i < k && Fires(OVERRIDE_IDS[i], facts, output, assessment) && ForcesReview(OVERRIDE_IDS[i])
  }

  ghost predicate Through(k: nat, w: Outcome, facts: RiskFacts, output: Classification, assessment: Option<Level>) {
    && k <= 11
    && w.fired == FiringFrom(OVERRIDE_IDS[..k], facts, output, assessment)
    && (w.review <==> ReviewDue(k, facts, output, assessment))
    && NotesAsFired(w, facts, output, assessment)
  }

  /** What one override adds to the fired ids, the review flag and the notes. */
  ghost predicate Adds(
    id: Override, before: Outcome, after: Outcome, facts: RiskFacts, output: Classification, assessment: Option<Level>)
  {
    var fires := Fires(id, facts, output, assessment);
    && after.fired == before.fired + (if fires then [id] else [])
    && (after.review <==> before.review || (fires && ForcesReview(id)))
    && after.notes == before.notes + (if fires then NotesOf(id, facts, output, assessment) else [])
  }

  lemma ThroughNext(
    id: Override, before: Outcome, after: Outcome, facts: RiskFacts, output: Classification, assessment: Option<Level>)
    requires Through(Position(id), before, facts, output, assessment)
         && Adds(id, before, after, facts, output, assessment)
    ensures Through(Position(id) + 1, after, facts, output, assessment)
  {
    FiringStep(Position(id), facts, output, assessment);
    NotesNext(id, before, after, facts, output, assessment);
    ReviewNext(Position(id), facts, output, assessment);
  }

  lemma ReviewNext(k: nat, facts: RiskFacts, output: Classification, assessment: Option<Level>)
    requires k < 11
    ensures ReviewDue(k + 1, facts, output, assessment)
       <==> ReviewDue(k, facts, output, assessment)
            || (Fires(OVERRIDE_IDS[k], facts, output, assessment) && ForcesReview(OVERRIDE_IDS[k]))
  {
  }

  lemma NotesNext(
    id: Override, before: Outcome, after: Outcome, facts: RiskFacts, output: Classification, assessment: Option<Level>)
    requires NotesAsFired(before, facts, output, assessment) && Adds(id, before, after, facts, output, assessment)
    ensures NotesAsFired(after, facts, output, assessment)
  {
    if Fires(id, facts, output, assessment) {
      NotesStep(before.fired, id, facts, output, assessment);
      JoinNotes(DroppedNotes(facts, FirstOccurrences([], output.missing)),
                NotesFor(before.fired, facts, output, assessment), NotesOf(id, facts, output, assessment));
    } else {
      assert after.fired == before.fired && after.notes == before.notes;
    }
  }

  lemma JoinNotes(a: seq<Note>, b: seq<Note>, c: seq<Note>)
    ensures a + b + c == a + (b + c)
  {
  }

  lemma NotesStep(ids: seq<Override>, id: Override, facts: RiskFacts, output: Classification, assessment: Option<Level>)
    ensures NotesFor(ids + [id], facts, output, assessment)
         == NotesFor(ids, facts, output, assessment) + NotesOf(id, facts, output, assessment)
  {
    assert (ids + [id])[..|ids|] == ids;
  }

  lemma WithFactorHolds(factors: seq<string>, condition: bool, factor: string)
    ensures forall f :: f in WithFactor(factors, condition, factor) <==> f in factors || (f == factor && condition)
  {
  }

  /** `_apply_overrides`: the record built from the proposal, normalised, then the eleven in order. */
  method ApplyOverrides(facts: RiskFacts, output: Classification, assessment: Option<Level>) returns (w: Working)
    ensures fresh(w) && IsOutcome(w.Now(), facts, output, assessment)
  {
    w := new Working(output);
    w.BoundMissingInformation(facts);
    UniqueHolds([], output.factors);
    FactorsDiffer();
    AddMissing(w, facts, output, assessment);
    assert w.missing == FinalMissing(facts, output);
    AddUnknowns(w, facts, output, assessment);
    AddIncomplete(w, facts, output, assessment);
    AddSensitive(w, facts, output, assessment);
    WithFactorHolds(FirstOccurrences([], output.factors), facts.hasSensitiveAttributes, SENSITIVE_FACTOR);
    AddImpact(w, facts, output, assessment);
    AddFloor(w, facts, output, assessment);
    ThroughAllIsOutcome(w.Now(), facts, output, assessment);
  }

  lemma ThroughAllIsOutcome(o: Outcome, facts: RiskFacts, output: Classification, assessment: Option<Level>)
    requires Through(11, o, facts, output, assessment)
    requires o.level == (if assessment.Some? then HigherOf(output.level, assessment.value) else output.level)
    requires o.factors == WithFactor(
      WithFactor(FirstOccurrences([], output.factors), facts.hasSensitiveAttributes, SENSITIVE_FACTOR),
      facts.affectsNaturalPersons, PERSON_FACTOR)
    requires o.missing == FinalMissing(facts, output)
    requires o.unanswerable == Unanswerable(facts, FirstOccurrences([], output.missing))
    ensures IsOutcome(o, facts, output, assessment)
  {
    UniqueHolds([], output.factors);
    assert OVERRIDE_IDS[..11] == OVERRIDE_IDS;
    ReviewDueIsSomeOverride(facts, output, assessment);
  }

  lemma ReviewDueIsSomeOverride(facts: RiskFacts, output: Classification, assessment: Option<Level>)
    ensures ReviewDue(11, facts, output, assessment)
       <==> output.needsReview || exists id :: Fires(id, facts, output, assessment) && ForcesReview(id)
  {
    if exists id :: Fires(id, facts, output, assessment) && ForcesReview(id) {
      var id :| Fires(id, facts, output, assessment) && ForcesReview(id);
      assert OVERRIDE_IDS[Position(id)] == id;
    }
  }

  function Position(id: Override): (i: nat)
    ensures i < 11 && OVERRIDE_IDS[i] == id
  {
    match id
    case ObservedMissingInformation => 0
    case ConsequentialContextRequired => 1
    case UnknownRiskReview => 2
    case UnknownActivityReview => 3
    case IncompleteInformationReview => 4
    case SensitiveAttributeFactor => 5
    case SensitiveAttributeReview => 6
    case PersonImpactFactor => 7
    case PersonImpactReview => 8
    case DeclaredRiskUnderdeclaration => 9
    case InherentRiskFloor => 10
  }

  /** The overrides that add what is missing. */
  method AddMissing(w: Working, facts: RiskFacts, output: Classification, assessment: Option<Level>)
    requires w.fired == [] && w.review == output.needsReview && NotesAsFired(w.Now(), facts, output, assessment)
    requires w.missing == BoundedMissing(facts, output)
    modifies w
    ensures Through(2, w.Now(), facts, output, assessment) && w.missing == FinalMissing(facts, output)
    ensures w.level == old(w.level) && w.factors == old(w.factors) && w.unanswerable == old(w.unanswerable)
  {
    assert Through(0, w.Now(), facts, output, assessment);
    AddObserved(w, facts, output, assessment);
    AddContext(w, facts, output, assessment);
  }

  method AddObserved(w: Working, facts: RiskFacts, output: Classification, assessment: Option<Level>)
    requires Through(0, w.Now(), facts, output, assessment)
    requires w.missing == BoundedMissing(facts, output)
    modifies w
    ensures Through(1, w.Now(), facts, output, assessment) && w.missing == WithObserved(facts, old(w.missing))
    ensures w.level == old(w.level) && w.factors == old(w.factors) && w.unanswerable == old(w.unanswerable)
  {
    ghost var before := w.Now();
    w.OverrideObservedMissingInformation(facts);
    ObservedFires(facts, before.missing);
    ThroughNext(ObservedMissingInformation, before, w.Now(), facts, output, assessment);
  }

  method AddContext(w: Working, facts: RiskFacts, output: Classification, assessment: Option<Level>)
    requires Through(1, w.Now(), facts, output, assessment)
    requires w.missing == WithObserved(facts, BoundedMissing(facts, output))
    modifies w
    ensures Through(2, w.Now(), facts, output, assessment) && w.missing == FinalMissing(facts, output)
    ensures w.level == old(w.level) && w.factors == old(w.factors) && w.unanswerable == old(w.unanswerable)
  {
    ghost var before := w.Now();
    w.OverrideConsequentialContextRequired(facts, output);
    ContextFires(facts, output.category, before.missing);
    ThroughNext(ConsequentialContextRequired, before, w.Now(), facts, output, assessment);
  }

  /** An override that can only ask for review, in its place. */
  method Review(
    w: Working, id: Override, condition: bool, note: Option<Note>,
    facts: RiskFacts, output: Classification, assessment: Option<Level>)
    requires Through(Position(id), w.Now(), facts, output, assessment) && ForcesReview(id)
    requires condition == Fires(id, facts, output, assessment)
    requires condition ==> NotesOf(id, facts, output, assessment) == if note.Some? then [note.value] else []
    modifies w`review, w`fired, w`notes
    ensures Through(Position(id) + 1, w.Now(), facts, output, assessment)
  {
    ghost var before := w.Now();
    w.ForceReview(id, condition, note);
    ThroughNext(id, before, w.Now(), facts, output, assessment);
  }

  /** An override that adds a canonical factor, in its place. */
  method Require(
    w: Working, id: Override, condition: bool, factor: string, note: Note,
    facts: RiskFacts, output: Classification, assessment: Option<Level>)
    requires Through(Position(id), w.Now(), facts, output, assessment) && !ForcesReview(id)
    requires (condition && factor !in w.factors) == Fires(id, facts, output, assessment)
    requires NotesOf(id, facts, output, assessment) == [note]
    modifies w`factors, w`fired, w`notes
    ensures Through(Position(id) + 1, w.Now(), facts, output, assessment)
    ensures w.factors == WithFactor(old(w.factors), condition, factor)
  {
    ghost var before := w.Now();
    w.RequireFactor(id, condition, factor, note);
    ThroughNext(id, before, w.Now(), facts, output, assessment);
  }

  /** The overrides that ask for review of an unknown level or activity. */
  method AddUnknowns(w: Working, facts: RiskFacts, output: Classification, assessment: Option<Level>)
    requires Through(2, w.Now(), facts, output, assessment)
    modifies w`review, w`fired, w`notes
    ensures Through(4, w.Now(), facts, output, assessment)
  {
    Review(w, UnknownRiskReview, output.level.UnknownLevel?, None, facts, output, assessment);
    Review(w, UnknownActivityReview, output.category.UnknownActivity?, None, facts, output, assessment);
  }

  /** The override that asks for review when anything is missing. */
  method AddIncomplete(w: Working, facts: RiskFacts, output: Classification, assessment: Option<Level>)
    requires Through(4, w.Now(), facts, output, assessment) && w.missing == FinalMissing(facts, output)
    modifies w`review, w`fired, w`notes
    ensures Through(5, w.Now(), facts, output, assessment)
  {
    IncompleteFires(facts, output, assessment, w.missing);
    Review(w, IncompleteInformationReview, w.missing != [], None, facts, output, assessment);
  }

  lemma IncompleteFires(facts: RiskFacts, output: Classification, assessment: Option<Level>, missing: seq<string>)
    requires missing == FinalMissing(facts, output)
    ensures (missing != []) == Fires(IncompleteInformationReview, facts, output, assessment)
    ensures Position(IncompleteInformationReview) == 4 && ForcesReview(IncompleteInformationReview)
  {
  }

  lemma ObservedFires(facts: RiskFacts, missing: seq<string>)
    ensures WithObserved(facts, missing) != missing <==> LacksObserved(facts, missing)
  {
    var omitted := KeepOut(facts.missingRequired, missing);
    assert |omitted| > 0 ==> omitted[0] in omitted;
    assert |WithObserved(facts, missing)| == |missing| + |omitted|;
    if omitted == [] { assert missing + omitted == missing; }
  }

  lemma ContextFires(facts: RiskFacts, category: Category, missing: seq<string>)
    ensures missing + AbsentContext(facts, category, missing) != missing <==> LacksContext(facts, category, missing)
  {
    var absent := AbsentContext(facts, category, missing);
    assert |absent| > 0 ==> absent[0] in absent;
    assert |missing + absent| == |missing| + |absent|;
    if absent == [] { assert missing + absent == missing; }
  }

  /** Sensitive attributes: the canonical factor, and always a review. */
  method AddSensitive(w: Working, facts: RiskFacts, output: Classification, assessment: Option<Level>)
    requires Through(5, w.Now(), facts, output, assessment)
    requires SENSITIVE_FACTOR in w.factors <==> SENSITIVE_FACTOR in output.factors
    modifies w`factors, w`review, w`fired, w`notes
    ensures Through(7, w.Now(), facts, output, assessment)
    ensures w.factors == WithFactor(old(w.factors), facts.hasSensitiveAttributes, SENSITIVE_FACTOR)
  {
    Require(w, SensitiveAttributeFactor, facts.hasSensitiveAttributes, SENSITIVE_FACTOR, SensitiveFactorAdded,
            facts, output, assessment);
    AddSensitiveReview(w, facts, output, assessment);
  }

  method AddSensitiveReview(w: Working, facts: RiskFacts, output: Classification, assessment: Option<Level>)
    requires Through(6, w.Now(), facts, output, assessment)
    modifies w`review, w`fired, w`notes
    ensures Through(7, w.Now(), facts, output, assessment)
  {
    Review(w, SensitiveAttributeReview, facts.hasSensitiveAttributes, None, facts, output, assessment);
  }

  lemma FactorsDiffer()
    ensures SENSITIVE_FACTOR != PERSON_FACTOR
  {
    assert SENSITIVE_FACTOR[0] == 's' && PERSON_FACTOR[0] == 'a';
  }

  /** Impact on people: the canonical factor, and a review of a minimal level. */
  method AddImpact(w: Working, facts: RiskFacts, output: Classification, assessment: Option<Level>)
    requires Through(7, w.Now(), facts, output, assessment) && w.level == output.level
    requires PERSON_FACTOR in w.factors <==> PERSON_FACTOR in output.factors
    modifies w`factors, w`review, w`fired, w`notes
    ensures Through(9, w.Now(), facts, output, assessment)
    ensures w.factors == WithFactor(old(w.factors), facts.affectsNaturalPersons, PERSON_FACTOR)
  {
    Require(w, PersonImpactFactor, facts.affectsNaturalPersons, PERSON_FACTOR, PersonFactorAdded,
            facts, output, assessment);
    AddImpactReview(w, facts, output, assessment);
  }

  method AddImpactReview(w: Working, facts: RiskFacts, output: Classification, assessment: Option<Level>)
    requires Through(8, w.Now(), facts, output, assessment) && w.level == output.level
    modifies w`review, w`fired, w`notes
    ensures Through(9, w.Now(), facts, output, assessment)
  {
    Review(w, PersonImpactReview, facts.affectsNaturalPersons && Rank(w.level) <= Rank(Low), Some(MinimalRiskConflicts),
           facts, output, assessment);
  }

  /** The last two: the declared level and MIRA's floor. */
  method AddFloor(w: Working, facts: RiskFacts, output: Classification, assessment: Option<Level>)
    requires Through(9, w.Now(), facts, output, assessment) && w.level == output.level
    modifies w`level, w`review, w`fired, w`notes
    ensures Through(11, w.Now(), facts, output, assessment)
    ensures w.level == if assessment.Some? then HigherOf(output.level, assessment.value) else output.level
  {
    Review(w, DeclaredRiskUnderdeclaration, IsMaterialDifference(facts.declaredLevel, output.level),
           Some(MaterialDifference(facts.declaredLevel, output.level)), facts, output, assessment);
    ghost var before := w.Now();
    w.OverrideInherentRiskFloor(assessment);
    ThroughNext(InherentRiskFloor, before, w.Now(), facts, output, assessment);
  }

  // ---- Only tightening ----

  /** The level is the maximum of proposed and assessed; no proposed factor, answerable missing name,
      observed missing name or review flag is lost; anything missing forces review. */
  lemma OutcomeTightens(o: Outcome, facts: RiskFacts, output: Classification, assessment: Option<Level>)
    requires IsOutcome(o, facts, output, assessment)
    ensures Rank(o.level) >= Rank(output.level) && (assessment.Some? ==> Rank(o.level) >= Rank(assessment.value))
    ensures o.level == output.level || Some(o.level) == assessment
    ensures forall f :: f in output.factors ==> f in o.factors
    ensures forall n :: n in output.missing && (facts.answerable == [] || n in facts.answerable) ==> n in o.missing
    ensures forall n :: n in facts.missingRequired ==> n in o.missing
    ensures output.needsReview || o.missing != [] || o.level.UnknownLevel? || o.level != output.level ==> o.review
  {
    UniqueHolds([], output.missing);
    if o.missing != [] { assert Fires(IncompleteInformationReview, facts, output, assessment); }
    if o.level != output.level { assert Fires(InherentRiskFloor, facts, output, assessment); }
    if o.level.UnknownLevel? { assert Fires(UnknownRiskReview, facts, output, assessment); }
  }

  /** A name is missing in the end exactly when the model proposed it and it may be asked for, or it was
      observed to be missing, or it is context this activity requires and does not have. */
  lemma MissingExactly(o: Outcome, facts: RiskFacts, output: Classification, assessment: Option<Level>, name: string)
    requires IsOutcome(o, facts, output, assessment)
    ensures name in o.missing
       <==> || (name in output.missing && (facts.answerable == [] || name in facts.answerable))
            || name in facts.missingRequired
            || (IsRequired(facts, output.category, name) && name !in facts.presentContext)
  {
    UniqueHolds([], output.missing);
    RequiredExactly(facts, output.category, name);
  }

  /** Which context an activity requires: that of its use from model development on, oversight and
      consequences where it has some, and the population where it affects people. */
  ghost predicate IsRequired(facts: RiskFacts, category: Category, name: string) {
    var consequential := category in {DecisionSupport, AutomatedDecision, Deployment};
    || (name in {"intended_use", "decision_role", "deployment_context"}
        && (facts.affectsNaturalPersons || consequential || category == ModelDevelopment))
    || (name in {"human_oversight", "potential_consequences"} && (facts.affectsNaturalPersons || consequential))
    || (name == "affected_population" && facts.affectsNaturalPersons)
  }

  lemma RequiredExactly(facts: RiskFacts, category: Category, name: string)
    ensures name in RequiredContext(facts, category) <==> IsRequired(facts, category, name)
  {
  }

  /** Cutting names keeps their order and their repeats. */
  lemma CutsInOrder(a: seq<string>, b: seq<string>, n: string, known: seq<string>)
    ensures KeepIn(a + b, known) == KeepIn(a, known) + KeepIn(b, known)
    ensures KeepOut(a + b, known) == KeepOut(a, known) + KeepOut(b, known)
    ensures KeepIn([n], known) == if n in known then [n] else []
    ensures KeepOut([n], known) == if n in known then [] else [n]
  {
    assert [n][1..] == [];
    KeepInJoins(a, b, known);
    KeepOutJoins(a, b, known);
  }

  lemma {:induction false} KeepInJoins(a: seq<string>, b: seq<string>, known: seq<string>)
    ensures KeepIn(a + b, known) == KeepIn(a, known) + KeepIn(b, known)
  {
    if a == [] {
      assert a + b == b;
    } else {
      assert (a + b)[1..] == a[1..] + b;
      KeepInJoins(a[1..], b, known);
    }
  }

  lemma {:induction false} KeepOutJoins(a: seq<string>, b: seq<string>, known: seq<string>)
    ensures KeepOut(a + b, known) == KeepOut(a, known) + KeepOut(b, known)
  {
    if a == [] {
      assert a + b == b;
    } else {
      assert (a + b)[1..] == a[1..] + b;
      KeepOutJoins(a[1..], b, known);
    }
  }

  /** Fired overrides are listed in application order, each at most once, and exactly when they apply. */
  lemma {:induction false} FiredInOrder(k: nat, facts: RiskFacts, output: Classification, assessment: Option<Level>)
    requires k <= 11
    ensures var fired := FiringFrom(OVERRIDE_IDS[..k], facts, output, assessment);
      && (forall i, j :: 0 <= i < j < |fired| ==> Position(fired[i]) < Position(fired[j]))
      && (forall id :: id in fired <==> Position(id) < k && Fires(id, facts, output, assessment))
  {
    if k > 0 {
      FiredInOrder(k - 1, facts, output, assessment);
      FiringStep(k - 1, facts, output, assessment);
      PositionIs(k - 1);
      var before, fired := FiringFrom(OVERRIDE_IDS[..k - 1], facts, output, assessment),
                           FiringFrom(OVERRIDE_IDS[..k], facts, output, assessment);
      forall i, j | 0 <= i < j < |fired| ensures Position(fired[i]) < Position(fired[j]) {
        assert fired[i] in before;
      }
      forall id ensures id in fired <==> Position(id) < k && Fires(id, facts, output, assessment) {
        assert id in fired <==> id in before || (id == OVERRIDE_IDS[k - 1] && Fires(id, facts, output, assessment));
      }
    }
  }

  lemma PositionIs(i: nat)
    requires i < 11
    ensures Position(OVERRIDE_IDS[i]) == i
    ensures forall id :: Position(id) == i <==> id == OVERRIDE_IDS[i]
  {
  }

  // ---- Two runs ----

  ghost predicate NoLessThan(a: Option<Level>, b: Option<Level>) {
    b.Some? ==> a.Some? && Rank(a.value) >= Rank(b.value)
  }

  /** The same facts except possibly more sensitivity and more impact on people. */
  ghost predicate AtLeastAsSevere(a: RiskFacts, b: RiskFacts) {
    && a == b.(hasSensitiveAttributes := a.hasSensitiveAttributes, affectsNaturalPersons := a.affectsNaturalPersons)
    && (b.hasSensitiveAttributes ==> a.hasSensitiveAttributes)
    && (b.affectsNaturalPersons ==> a.affectsNaturalPersons)
  }

  ghost predicate Contains(a: seq<string>, b: seq<string>) {
    forall x :: x in b ==> x in a
  }

  lemma RequiredContextGrows(a: RiskFacts, b: RiskFacts, category: Category)
    requires AtLeastAsSevere(a, b)
    ensures Contains(RequiredContext(a, category), RequiredContext(b, category))
  {
  }

  lemma MissingGrows(a: RiskFacts, b: RiskFacts, output: Classification)
    requires AtLeastAsSevere(a, b)
    ensures Contains(FinalMissing(a, output), FinalMissing(b, output))
  {
    RequiredContextGrows(a, b, output.category);
    var observed := WithObserved(b, Bounded(b, FirstOccurrences([], output.missing)));
    assert observed == WithObserved(a, Bounded(a, FirstOccurrences([], output.missing)));
    forall n | n in FinalMissing(b, output) ensures n in FinalMissing(a, output) {
      if n !in observed {
        assert n in AbsentContext(b, output.category, observed);
        assert n in AbsentContext(a, output.category, observed);
      }
    }
  }

  /** Over two runs of one proposal, more sensitivity, more impact on people and a higher assessed
      level give an outcome no looser anywhere. */
  lemma OutcomeIsMonotone(
    o: Outcome, facts: RiskFacts, assessment: Option<Level>,
    p: Outcome, milder: RiskFacts, lower: Option<Level>, output: Classification)
    requires IsOutcome(o, facts, output, assessment) && IsOutcome(p, milder, output, lower)
    requires AtLeastAsSevere(facts, milder) && NoLessThan(assessment, lower)
    ensures Rank(o.level) >= Rank(p.level)
    ensures Contains(o.factors, p.factors) && Contains(o.missing, p.missing)
    ensures p.review ==> o.review
  {
    MissingGrows(facts, milder, output);
    if p.review && !output.needsReview {
      var id :| Fires(id, milder, output, lower) && ForcesReview(id);
      FiresStaysDue(id, facts, assessment, milder, lower, output);
    }
  }

  lemma FiresStaysDue(
    id: Override, facts: RiskFacts, assessment: Option<Level>, milder: RiskFacts, lower: Option<Level>,
    output: Classification)
    requires AtLeastAsSevere(facts, milder) && NoLessThan(assessment, lower)
    requires Fires(id, milder, output, lower) && ForcesReview(id)
    ensures Fires(id, facts, output, assessment)
  {
    MissingGrows(facts, milder, output);
    if id.IncompleteInformationReview? {
      assert FinalMissing(milder, output)[0] in FinalMissing(facts, output);
    }
  }

  // ---- Failing closed ----

  /** A failed classification: high, or the assessed level when that is higher, always with review. */
  function FailClosedLevel(assessment: Option<Level>): (l: Level)
    ensures Rank(l) >= Rank(High)
    ensures assessment.Some? ==> Rank(l) >= Rank(assessment.value)
    ensures l == High || Some(l) == assessment
  {
    if assessment.Some? && Rank(assessment.value) > Rank(High) then assessment.value else High
  }
}
