/** What `validate_playbook` reports, and what it can never report of an edited playbook. */
module PlaybookValidation {
  import opened Common
  import opened Sorting
  import opened Playbook
  import opened PlaybookEdits

  datatype Code =
    | UnsupportedSchema | UnknownActivity | UnknownCapability | UnknownStep
    | DuplicateActivity | DuplicateStep | AmbiguousOrder | NoEnabledSteps | NoEnabledActivities

  function Repeat(code: Code, n: nat): seq<Code> {
    seq(n, _ => code)
  }

  /** How many positions repeat an earlier key. */
  function Duplicates(keys: seq<string>): nat {
    if keys == [] then 0
    else
      var front := keys[..|keys| - 1];
      Duplicates(front) + if keys[|keys| - 1] in front then 1 else 0
  }

  predicate AllDifferent(orders: seq<int>) {
    |Elements(orders)| == |orders|
  }

  function Orders(s: seq<Activity>): seq<int> {
    seq(|s|, i requires 0 <= i < |s| => s[i].order)
  }

  function StepOrders(s: seq<Step>): seq<int> {
    seq(|s|, i requires 0 <= i < |s| => s[i].order)
  }

  function StepErrors(kind: ActivityKind, steps: seq<Step>, loaded: Loaded): seq<Code> {
    if steps == [] then []
    else
      StepErrors(kind, steps[..|steps| - 1], loaded)
      + var key := steps[|steps| - 1].key;
        if kind.stepsAreCapabilities then if key in loaded.enabled then [] else [UnknownCapability]
        else if key in kind.steps then []
        else [UnknownStep]
  }

  function ActivityErrors(a: Activity, loaded: Loaded): seq<Code> {
    var kind := KnownActivity(a.key);
    if kind.None? then [UnknownActivity]
    else
      Repeat(DuplicateStep, Duplicates(Keys(a.steps, StepKey)))
      + (if AllDifferent(StepOrders(a.steps)) then [] else [AmbiguousOrder])
      + StepErrors(kind.value, a.steps, loaded)
      + if a.enabled && kind.value.built && (forall s :: s in a.steps ==> !s.enabled) then [NoEnabledSteps] else []
  }

  function EachActivity(s: seq<Activity>, loaded: Loaded): seq<Code> {
    if s == [] then [] else EachActivity(s[..|s| - 1], loaded) + ActivityErrors(s[|s| - 1], loaded)
  }

  function Errors(d: Document, loaded: Loaded): seq<Code> {
    (if d.schemaVersion != SCHEMA_VERSION then [UnsupportedSchema] else [])
    + Repeat(DuplicateActivity, Duplicates(Keys(d.activities, ActivityKey)))
    + (if AllDifferent(Orders(d.activities)) then [] else [AmbiguousOrder])
    + EachActivity(d.activities, loaded)
    + if forall a :: a in d.activities ==> !a.enabled then [NoEnabledActivities] else []
  }

  predicate Valid(d: Document, loaded: Loaded) {
    Errors(d, loaded) == []
  }

  // ---------------------------------------------------------------- what may be wrong

  /** Each way an activity can be wrong; of an unknown one nothing more is said. */
  ghost predicate ActivityFault(a: Activity, loaded: Loaded, code: Code) {
    var kind := KnownActivity(a.key);
    if kind.None? then code == UnknownActivity
    else
      match code
      case UnknownCapability => kind.value.stepsAreCapabilities && exists s :: s in a.steps && s.key !in loaded.enabled
      case UnknownStep => !kind.value.stepsAreCapabilities && exists s :: s in a.steps && s.key !in kind.value.steps
      case DuplicateStep => !Distinct(Keys(a.steps, StepKey))
      case AmbiguousOrder => !Distinct(StepOrders(a.steps))
      case NoEnabledSteps => a.enabled && kind.value.built && forall s :: s in a.steps ==> !s.enabled
      case _ => false
  }

  ghost predicate Fault(d: Document, loaded: Loaded, code: Code) {
    || (code == UnsupportedSchema && d.schemaVersion != SCHEMA_VERSION)
    || (code == DuplicateActivity && !Distinct(Keys(d.activities, ActivityKey)))
    || (code == AmbiguousOrder && !Distinct(Orders(d.activities)))
    || (code == NoEnabledActivities && forall a :: a in d.activities ==> !a.enabled)
    || exists a :: a in d.activities && ActivityFault(a, loaded, code)
  }

  /** Known, its steps told apart by key and by position and all of them available, and one to run if it runs. */
  ghost predicate WorkableActivity(a: Activity, loaded: Loaded) {
    var kind := KnownActivity(a.key);
    && kind.Some?
    && Distinct(Keys(a.steps, StepKey)) && Distinct(StepOrders(a.steps))
    && (forall s :: s in a.steps ==>
          if kind.value.stepsAreCapabilities then s.key in loaded.enabled else s.key in kind.value.steps)
    && (a.enabled && kind.value.built ==> exists s :: s in a.steps && s.enabled)
  }

  ghost predicate Workable(d: Document, loaded: Loaded) {
    && d.schemaVersion == SCHEMA_VERSION
    && Distinct(Keys(d.activities, ActivityKey)) && Distinct(Orders(d.activities))
    && (forall a :: a in d.activities ==> WorkableActivity(a, loaded))
    && exists a :: a in d.activities && a.enabled
  }

  // ---------------------------------------------------------------- what is reported

  lemma {:induction false} DuplicatesMeansRepeated(keys: seq<string>)
    ensures Duplicates(keys) == 0 <==> Distinct(keys)
  {
    if keys != [] {
      var front, last := keys[..|keys| - 1], keys[|keys| - 1];
      DuplicatesMeansRepeated(front);
      assert keys == front + [last];
      if last in front {
        var i :| 0 <= i < |front| && front[i] == last;
        assert keys[i] == keys[|front|];
      } else if Distinct(front) {
        DistinctAppend(front, last);
      } else {
        assert forall i, j :: 0 <= i < j < |front| ==> keys[i] == front[i] && keys[j] == front[j];
      }
    }
  }

  lemma {:induction false} EachActivityReports(s: seq<Activity>, loaded: Loaded, code: Code)
    ensures code in EachActivity(s, loaded) <==> exists a :: a in s && code in ActivityErrors(a, loaded)
  {
    if s != [] {
      var front, last := s[..|s| - 1], s[|s| - 1];
      EachActivityReports(front, loaded, code);
      assert s == front + [last];
      hide ActivityErrors;
    }
  }

  lemma {:induction false} StepsReport(kind: ActivityKind, steps: seq<Step>, loaded: Loaded, code: Code)
    ensures code in StepErrors(kind, steps, loaded) <==>
              || (code == UnknownCapability && kind.stepsAreCapabilities && exists s :: s in steps && s.key !in loaded.enabled)
              || (code == UnknownStep && !kind.stepsAreCapabilities && exists s :: s in steps && s.key !in kind.steps)
  {
    if steps != [] {
      var front, last := steps[..|steps| - 1], steps[|steps| - 1];
      StepsReport(kind, front, loaded, code);
      assert steps == front + [last];
    }
  }

  lemma RepeatReports(code: Code, keys: seq<string>, other: Code)
    ensures other in Repeat(code, Duplicates(keys)) <==> other == code && !Distinct(keys)
  {
    DuplicatesMeansRepeated(keys);
    var n := Duplicates(keys);
    if n > 0 {
      assert Repeat(code, n)[0] == code;
    }
    hide Duplicates, Distinct;
  }

  lemma ActivityReports(a: Activity, loaded: Loaded, code: Code)
    ensures code in ActivityErrors(a, loaded) <==> ActivityFault(a, loaded, code)
  {
    var kind := KnownActivity(a.key);
    RepeatReports(DuplicateStep, Keys(a.steps, StepKey), code);
    DistinctCardinality(StepOrders(a.steps));
    if kind.Some? {
      StepsReport(kind.value, a.steps, loaded, code);
    }
    hide KnownActivity, StepErrors, Repeat, Duplicates, Distinct, StepOrders;
  }

  lemma AllOfActivity(a: Activity, loaded: Loaded)
    ensures forall code :: code in ActivityErrors(a, loaded) <==> ActivityFault(a, loaded, code)
  {
    forall code
      ensures code in ActivityErrors(a, loaded) <==> ActivityFault(a, loaded, code)
    {
      ActivityReports(a, loaded, code);
    }
  }

  /** For every document and every code: it is reported exactly when the document has that fault. */
  lemma ReportedExactlyWhen(d: Document, loaded: Loaded, code: Code)
    ensures code in Errors(d, loaded) <==> Fault(d, loaded, code)
  {
    RepeatReports(DuplicateActivity, Keys(d.activities, ActivityKey), code);
    DistinctCardinality(Orders(d.activities));
    EachFault(d.activities, loaded, code);
    hide EachActivity, ActivityFault, Repeat, Duplicates, Distinct, Orders, Keys;
    InFive(if d.schemaVersion != SCHEMA_VERSION then [UnsupportedSchema] else [],
           Repeat(DuplicateActivity, Duplicates(Keys(d.activities, ActivityKey))),
           if AllDifferent(Orders(d.activities)) then [] else [AmbiguousOrder],
           EachActivity(d.activities, loaded),
           if forall a :: a in d.activities ==> !a.enabled then [NoEnabledActivities] else [],
           code);
  }

  lemma EachFault(s: seq<Activity>, loaded: Loaded, code: Code)
    ensures code in EachActivity(s, loaded) <==> exists a :: a in s && ActivityFault(a, loaded, code)
  {
    EachActivityReports(s, loaded, code);
    forall a | a in s
      ensures code in ActivityErrors(a, loaded) <==> ActivityFault(a, loaded, code)
    {
      ActivityReports(a, loaded, code);
    }
    hide EachActivity, ActivityErrors, ActivityFault;
  }

  lemma InFive(a: seq<Code>, b: seq<Code>, c: seq<Code>, d: seq<Code>, e: seq<Code>, code: Code)
    ensures code in a + b + c + d + e <==> code in a || code in b || code in c || code in d || code in e
  {
  }

  lemma AllReported(d: Document, loaded: Loaded)
    ensures forall code :: code in Errors(d, loaded) <==> Fault(d, loaded, code)
  {
    forall code
      ensures code in Errors(d, loaded) <==> Fault(d, loaded, code)
    {
      ReportedExactlyWhen(d, loaded, code);
    }
  }

  lemma FaultlessActivity(a: Activity, loaded: Loaded)
    ensures WorkableActivity(a, loaded) <==> forall code :: !ActivityFault(a, loaded, code)
  {
    hide KnownActivity, Distinct, StepOrders;
    if forall code :: !ActivityFault(a, loaded, code) {
      assert !ActivityFault(a, loaded, UnknownActivity) && !ActivityFault(a, loaded, UnknownCapability);
      assert !ActivityFault(a, loaded, UnknownStep) && !ActivityFault(a, loaded, DuplicateStep);
      assert !ActivityFault(a, loaded, AmbiguousOrder) && !ActivityFault(a, loaded, NoEnabledSteps);
    }
  }

  lemma FaultlessExactlyWhen(d: Document, loaded: Loaded)
    ensures Workable(d, loaded) <==> forall code :: !Fault(d, loaded, code)
  {
    forall a | a in d.activities
      ensures WorkableActivity(a, loaded) <==> forall code :: !ActivityFault(a, loaded, code)
    {
      FaultlessActivity(a, loaded);
    }
    hide WorkableActivity, ActivityFault, Distinct, Orders;
    if forall code :: !Fault(d, loaded, code) {
      assert !Fault(d, loaded, UnsupportedSchema) && !Fault(d, loaded, DuplicateActivity);
      assert !Fault(d, loaded, AmbiguousOrder) && !Fault(d, loaded, NoEnabledActivities);
      forall a, code | a in d.activities
        ensures !ActivityFault(a, loaded, code)
      {
        assert !Fault(d, loaded, code);
      }
    }
  }

  lemma Validates(d: Document, loaded: Loaded)
    ensures Errors(d, loaded) == [] <==> Workable(d, loaded)
  {
    ValidExactlyWhen(d, loaded);
    hide Errors, Workable;
  }

  /** A revision is one to work from exactly when its document can be worked with what is configured. */
  lemma ValidExactlyWhen(d: Document, loaded: Loaded)
    ensures Valid(d, loaded) <==> Workable(d, loaded)
  {
    FaultlessExactlyWhen(d, loaded);
    AllReported(d, loaded);
    hide Errors, Fault, Workable;
    if !Valid(d, loaded) {
      assert Errors(d, loaded)[0] in Errors(d, loaded);
    }
  }

  // ---------------------------------------------------------------- the loops

  method CheckUnique(keys: seq<string>, code: Code) returns (errors: seq<Code>)
    ensures errors == Repeat(code, Duplicates(keys))
  {
    errors := [];
    var seen: set<string> := {};
    for n := 0 to |keys|
      invariant seen == Elements(keys[..n])
      invariant errors == Repeat(code, Duplicates(keys[..n]))
    {
      assert keys[..n + 1][..n] == keys[..n];
      if keys[n] in seen {
        errors := errors + [code];
      }
      seen := seen + {keys[n]};
    }
    assert keys[..|keys|] == keys;
  }

  method CheckSteps(kind: ActivityKind, steps: seq<Step>, loaded: Loaded) returns (errors: seq<Code>)
    ensures errors == StepErrors(kind, steps, loaded)
  {
    errors := [];
    for n := 0 to |steps|
      invariant errors == StepErrors(kind, steps[..n], loaded)
    {
      assert steps[..n + 1][..n] == steps[..n];
      if kind.stepsAreCapabilities {
        if steps[n].key !in loaded.enabled {
          errors := errors + [UnknownCapability];
        }
      } else if steps[n].key !in kind.steps {
        errors := errors + [UnknownStep];
      }
    }
    assert steps[..|steps|] == steps;
  }

  method CheckActivity(a: Activity, loaded: Loaded) returns (errors: seq<Code>)
    ensures errors == ActivityErrors(a, loaded)
    ensures forall code :: code in errors <==> ActivityFault(a, loaded, code)
  {
    hide ActivityFault, KnownActivity, Duplicates, AllDifferent, StepErrors, StepOrders, Repeat;
    var kind := KnownActivity(a.key);
    if kind.None? {
      AllOfActivity(a, loaded);
      return [UnknownActivity];
    }
    errors := CheckUnique(Keys(a.steps, StepKey), DuplicateStep);
    if !AllDifferent(StepOrders(a.steps)) {
      errors := errors + [AmbiguousOrder];
    }
    var steps := CheckSteps(kind.value, a.steps, loaded);
    errors := errors + steps;
    if a.enabled && kind.value.built && forall s :: s in a.steps ==> !s.enabled {
      errors := errors + [NoEnabledSteps];
    }
    assert errors == ActivityErrors(a, loaded);
    hide *;
    AllOfActivity(a, loaded);
  }

  method ValidatePlaybook(d: Document, loaded: Loaded) returns (errors: seq<Code>)
    ensures errors == Errors(d, loaded)
    ensures forall code :: code in errors <==> Fault(d, loaded, code)
    ensures errors == [] <==> Workable(d, loaded)
  {
    hide ActivityErrors, ActivityFault, Duplicates, Fault, Workable;
    errors := if d.schemaVersion != SCHEMA_VERSION then [UnsupportedSchema] else [];
    var repeated := CheckUnique(Keys(d.activities, ActivityKey), DuplicateActivity);
    errors := errors + repeated;
    if !AllDifferent(Orders(d.activities)) {
      errors := errors + [AmbiguousOrder];
    }
    ghost var before := errors;
    for n := 0 to |d.activities|
      invariant errors == before + EachActivity(d.activities[..n], loaded)
    {
      assert d.activities[..n + 1][..n] == d.activities[..n];
      var a := d.activities[n];
      var found := CheckActivity(a, loaded);
      errors := errors + found;
    }
    assert d.activities[..|d.activities|] == d.activities;
    if forall a :: a in d.activities ==> !a.enabled {
      errors := errors + [NoEnabledActivities];
    }
    assert errors == Errors(d, loaded);
    hide *;
    AllReported(d, loaded);
    Validates(d, loaded);
  }

  // ---------------------------------------------------------------- what an edit cannot leave

  /** A repeated activity key is reported, and nothing else is reported as one. */
  lemma DuplicateActivityExactlyWhen(d: Document, loaded: Loaded)
    ensures DuplicateActivity in Errors(d, loaded) <==> !Distinct(Keys(d.activities, ActivityKey))
  {
    ReportedExactlyWhen(d, loaded, DuplicateActivity);
    hide Errors, Distinct, KnownActivity;
  }

  /** Two things at one position, among the activities or among the steps of a known one. */
  lemma AmbiguousOrderExactlyWhen(d: Document, loaded: Loaded)
    ensures AmbiguousOrder in Errors(d, loaded) <==>
              || !Distinct(Orders(d.activities))
              || exists a :: a in d.activities && KnownActivity(a.key).Some? && !Distinct(StepOrders(a.steps))
  {
    ReportedExactlyWhen(d, loaded, AmbiguousOrder);
    hide Errors, Distinct, KnownActivity, Orders, StepOrders;
  }

  /** An edited playbook is never reported as repeating a key or sharing a position. */
  lemma EditedIsNeverAmbiguous(d: Document, changes: seq<Change>, loaded: Loaded, now: Loaded)
    requires UniqueActivities(d.activities) && ApplyChanges(d, changes, loaded).Some?
    ensures var errors := Errors(ApplyChanges(d, changes, loaded).value, now);
            DuplicateActivity !in errors && DuplicateStep !in errors && AmbiguousOrder !in errors
  {
    AcceptedChangesNormalise(d, changes, loaded);
    var r := ApplyChanges(d, changes, loaded).value;
    hide ApplyChanges, Errors, KnownActivity;
    forall x, y | 0 <= x < y < |r.activities|
      ensures r.activities[x].key != r.activities[y].key
    {
      assert ActivitiesDiffer(r.activities[x], r.activities[y]);
    }
    forall i | 0 <= i < |r.activities|
      ensures Distinct(StepOrders(r.activities[i].steps)) && Distinct(Keys(r.activities[i].steps, StepKey))
    {
      EditedStepsAreFine(r.activities[i]);
    }
    TellingApart(r, now);
  }

  lemma TellingApart(d: Document, loaded: Loaded)
    requires Distinct(Keys(d.activities, ActivityKey)) && Distinct(Orders(d.activities))
    requires forall a :: a in d.activities ==> Distinct(StepOrders(a.steps)) && Distinct(Keys(a.steps, StepKey))
    ensures DuplicateActivity !in Errors(d, loaded) && DuplicateStep !in Errors(d, loaded)
    ensures AmbiguousOrder !in Errors(d, loaded)
  {
    hide Errors, Distinct, KnownActivity, Orders, StepOrders;
    ReportedExactlyWhen(d, loaded, DuplicateActivity);
    ReportedExactlyWhen(d, loaded, DuplicateStep);
    ReportedExactlyWhen(d, loaded, AmbiguousOrder);
  }

  lemma EditedStepsAreFine(a: Activity)
    requires UniqueSteps(a.steps) && StepsInOrder(a.steps)
    ensures Distinct(StepOrders(a.steps)) && Distinct(Keys(a.steps, StepKey))
  {
    forall x, y | 0 <= x < y < |a.steps|
      ensures a.steps[x].key != a.steps[y].key
    {
      assert StepsDiffer(a.steps[x], a.steps[y]);
    }
  }
}
