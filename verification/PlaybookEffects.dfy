/** What each edit makes of a playbook in order: its own target changed as asked, and nothing else. */
module PlaybookEffects {
  import opened Common
  import opened Sorting
  import opened Playbook
  import opened PlaybookEdits

  /** The steps of a list closed up: positions 10, 20, ... by place. */
  function Placed(s: seq<Step>): seq<Step> {
    seq(|s|, i requires 0 <= i < |s| => s[i].(order := (i + 1) * ORDER_STEP))
  }

  function WithSteps(s: seq<Activity>, at: nat, steps: seq<Step>): seq<Activity>
    requires at < |s|
  {
    s[at := s[at].(steps := steps)]
  }

  /** The activities `after` are those `before` with just this edit made. */
  ghost predicate Does(c: Change, before: seq<Activity>, after: seq<Activity>, loaded: Loaded)
    requires !SourceChange(c)
  {
    var at := FindActivity(before, c.activity);
    if at.None? then
      && c.EnableActivity? && c.enable && KnownActivity(c.activity).Some?
      && var kind := KnownActivity(c.activity).value;
         |after| == |before| + 1 && before <= after
         && after[|before|].key == kind.key && after[|before|].enabled
         && after[|before|].order == (|before| + 1) * ORDER_STEP
         && after[|before|].name == kind.name && after[|before|].freshData == kind.built && after[|before|].intro == ""
         && Keys(after[|before|].steps, StepKey) == kind.steps && StepsInOrder(after[|before|].steps)
         && (forall step :: step in after[|before|].steps ==> step.enabled && step.name == step.key)
    else
      var a := before[at.value];
      match c
      case EnableActivity(_, enable) => after == before[at.value := a.(enabled := enable)]
      case UpdateIntro(_, intro) => after == before[at.value := a.(intro := intro)]
      case EnableStep(_, key, enable) =>
        var k := FindStep(a.steps, key);
        k.Some? && after == WithSteps(before, at.value, a.steps[k.value := a.steps[k.value].(enabled := enable)])
      case AddStep(_, key, name) =>
        && FindStep(a.steps, key).None? && ValidKey(key)
        && var called := if name.Some? && name.value != "" then name.value else StepName(a.key, key, loaded);
           after == WithSteps(before, at.value, a.steps + [Step(key, called, true, (|a.steps| + 1) * ORDER_STEP)])
      case RemoveStep(_, key) =>
        var k := FindStep(a.steps, key);
        k.Some? && after == WithSteps(before, at.value, Placed(Drop(a.steps, k.value)))
      case MoveStep(_, _, _) => after == before
      case _ => true
  }

  lemma {:induction false} MaxOrderOf(s: seq<Step>, base: nat)
    requires forall i :: 0 <= i < |s| ==> s[i].order == (base + i + 1) * ORDER_STEP
    ensures MaxOrder(s) == if s == [] then 0 else (base + |s|) * ORDER_STEP
  {
    if |s| > 1 {
      MaxOrderOf(s[1..], base + 1);
    }
  }

  /** Renumbering leaves alone what is in order already. */
  lemma InOrderChange(d: Document, c: Change, loaded: Loaded, r: seq<Activity>)
    requires InOrder(d.activities) && !SourceChange(c) && Rewrite(d.activities, c, loaded) == Some(r) && InOrder(r)
    ensures ApplyChange(d, c, loaded) == Some(d.(activities := r))
  {
    InOrderIsSorted(d.activities);
    InOrderIsSorted(r);
    hide Rewrite, StableSort, Renumbered;
  }

  lemma StepsReplaced(s: seq<Activity>, at: nat, steps: seq<Step>)
    requires InOrder(s) && at < |s| && StepsInOrder(steps)
    ensures InOrder(WithSteps(s, at, steps))
  {
  }

  /** Removing a step closes the gap it leaves. */
  lemma RemovedCloses(steps: seq<Step>, k: nat)
    requires StepsInOrder(steps) && k < |steps|
    ensures RenumberSteps(Drop(steps, k)) == Placed(Drop(steps, k))
  {
    var rest := Drop(steps, k);
    assert forall i, j :: 0 <= i < j < |rest| ==> rest[i].order <= rest[j].order;
    SortOfSorted(rest, StepLeq);
    hide StableSort;
  }

  lemma RemovedRenumbers(d: Document, at: nat, k: nat)
    requires InOrder(d.activities) && at < |d.activities| && k < |d.activities[at].steps|
    ensures var steps := d.activities[at].steps;
            Renumbered(WithSteps(d.activities, at, Drop(steps, k))) == WithSteps(d.activities, at, Placed(Drop(steps, k)))
  {
    var s := d.activities;
    var steps := s[at].steps;
    RemovedCloses(steps, k);
    var dropped := WithSteps(s, at, Drop(steps, k));
    forall i | 0 <= i < |s|
      ensures Renumbered(dropped)[i] == WithSteps(s, at, Placed(Drop(steps, k)))[i]
    {
      if i != at {
        StepsInOrderAreSorted(s[i].steps);
      }
    }
  }

  /** Every accepted edit of a playbook in order, moves of activities aside, does what it says and no more. */
  lemma EditDoesWhatItSays(d: Document, c: Change, loaded: Loaded)
    requires InOrder(d.activities) && !SourceChange(c) && !c.MoveActivity?
    requires ApplyChange(d, c, loaded).Some?
    ensures var after := ApplyChange(d, c, loaded).value;
            after == d.(activities := after.activities) && Does(c, d.activities, after.activities, loaded)
  {
    var s := d.activities;
    InOrderIsSorted(s);
    var at := FindActivity(s, c.activity);
    if at.None? {
      Opens(d, c, loaded);
    } else if c.EnableActivity? {
      InOrderChange(d, c, loaded, s[at.value := s[at.value].(enabled := c.enable)]);
    } else if c.UpdateIntro? {
      InOrderChange(d, c, loaded, s[at.value := s[at.value].(intro := c.intro)]);
    } else if c.MoveStep? {
      MoveStepChangesNothing(d, c.activity, c.step, c.anchor, loaded);
    } else {
      EditsSteps(d, c, loaded, at.value);
    }
  }

  lemma Opens(d: Document, c: Change, loaded: Loaded)
    requires InOrder(d.activities) && !SourceChange(c) && FindActivity(d.activities, c.activity).None?
    requires ApplyChange(d, c, loaded).Some?
    ensures var after := ApplyChange(d, c, loaded).value;
            after == d.(activities := after.activities) && Does(c, d.activities, after.activities, loaded)
  {
    var s := d.activities;
    InOrderIsSorted(s);
    assert c.EnableActivity? && c.enable && KnownActivity(c.activity).Some?;
    RegistryIsDistinct(c.activity);
    hide KnownActivity, StableSort, Renumbered;
    var kind := KnownActivity(c.activity).value;
    var added := Added(kind, s);
    assert InOrder(s + [added]);
    InOrderChange(d, c, loaded, s + [added]);
    assert Keys(added.steps, StepKey) == kind.steps;
  }

  /** What the step rewrites make of steps in order. */
  ghost predicate DoesSteps(c: Change, a: Activity, steps: seq<Step>, loaded: Loaded)
    requires c.EnableStep? || c.AddStep? || c.RemoveStep?
  {
    var k := FindStep(a.steps, c.step);
    if c.EnableStep? then k.Some? && steps == a.steps[k.value := a.steps[k.value].(enabled := c.enable)]
    else if c.AddStep? then
      && k.None? && ValidKey(c.step)
      && var called := if c.name.Some? && c.name.value != "" then c.name.value else StepName(a.key, c.step, loaded);
         steps == a.steps + [Step(c.step, called, true, (|a.steps| + 1) * ORDER_STEP)]
    else k.Some? && steps == Drop(a.steps, k.value)
  }

  lemma RewritesSteps(a: Activity, c: Change, loaded: Loaded)
    requires StepsInOrder(a.steps) && (c.EnableStep? || c.AddStep? || c.RemoveStep?)
    requires RewriteSteps(a, c, loaded).Some?
    ensures var steps := RewriteSteps(a, c, loaded).value;
            DoesSteps(c, a, steps, loaded) && (!c.RemoveStep? ==> StepsInOrder(steps))
  {
    MaxOrderOf(a.steps, 0);
    hide StepName, ValidKey, MaxOrder;
  }

  lemma RewritesThrough(s: seq<Activity>, at: nat, c: Change, loaded: Loaded)
    requires (c.EnableStep? || c.AddStep? || c.RemoveStep?) && FindActivity(s, c.activity) == Some(at)
    ensures Rewrite(s, c, loaded)
            == if RewriteSteps(s[at], c, loaded).None? then None
               else Some(WithSteps(s, at, RewriteSteps(s[at], c, loaded).value))
  {
    hide RewriteSteps;
  }

  lemma AppliesThrough(d: Document, c: Change, loaded: Loaded)
    requires InOrder(d.activities) && !SourceChange(c)
    ensures var r := Rewrite(d.activities, c, loaded);
            ApplyChange(d, c, loaded) == if r.None? then None else Some(d.(activities := Renumbered(r.value)))
  {
    InOrderIsSorted(d.activities);
    hide Rewrite, StableSort, Renumbered;
  }

  lemma EditsSteps(d: Document, c: Change, loaded: Loaded, at: nat)
    requires InOrder(d.activities) && (c.EnableStep? || c.AddStep? || c.RemoveStep?)
    requires FindActivity(d.activities, c.activity) == Some(at) && ApplyChange(d, c, loaded).Some?
    ensures var after := ApplyChange(d, c, loaded).value;
            after == d.(activities := after.activities) && Does(c, d.activities, after.activities, loaded)
  {
    var s := d.activities;
    AppliesThrough(d, c, loaded);
    RewritesThrough(s, at, c, loaded);
    RewritesSteps(s[at], c, loaded);
    hide ApplyChange, Rewrite, RewriteSteps, Renumbered, StepName, ValidKey, FindActivity, FindStep, Drop;
    var steps := RewriteSteps(s[at], c, loaded).value;
    if c.RemoveStep? {
      RemovedRenumbers(d, at, FindStep(s[at].steps, c.step).value);
    } else {
      StepsReplaced(s, at, steps);
      InOrderChange(d, c, loaded, WithSteps(s, at, steps));
    }
  }

  // ---------------------------------------------------------------- edits undone

  lemma FoundLast(steps: seq<Step>, x: Step)
    requires FindStep(steps, x.key).None?
    ensures FindStep(steps + [x], x.key) == Some(|steps|)
  {
    var all := steps + [x];
    assert all[|steps|] == x;
    assert forall i :: 0 <= i < |steps| ==> all[i] == steps[i];
  }

  lemma FoundStill(s: seq<Activity>, at: nat, a: Activity, key: string)
    requires FindActivity(s, key) == Some(at) && a.key == key
    ensures FindActivity(s[at := a], key) == Some(at)
  {
    var after := s[at := a];
    var r := FindActivity(after, key);
    assert forall i :: 0 <= i < at ==> after[i] == s[i];
    assert after[at].key == key && r.Some?;
    hide FindActivity;
    assert r.value == at;
  }

  lemma AddedStep(d: Document, activity: string, key: string, name: Option<string>, loaded: Loaded)
    requires InOrder(d.activities) && ApplyChange(d, AddStep(activity, key, name), loaded).Some?
    ensures FindActivity(d.activities, activity).Some?
    ensures var at := FindActivity(d.activities, activity).value;
            var steps := d.activities[at].steps;
            && FindStep(steps, key).None?
            && exists x: Step :: x.key == key && x.order == (|steps| + 1) * ORDER_STEP
                 && ApplyChange(d, AddStep(activity, key, name), loaded)
                    == Some(d.(activities := WithSteps(d.activities, at, steps + [x])))
  {
    EditDoesWhatItSays(d, AddStep(activity, key, name), loaded);
    hide ApplyChange, StepName;
  }

  lemma LastRemoved(steps: seq<Step>, x: Step)
    requires StepsInOrder(steps) && FindStep(steps, x.key).None? && x.order == (|steps| + 1) * ORDER_STEP
    ensures StepsInOrder(steps + [x]) && FindStep(steps + [x], x.key) == Some(|steps|)
    ensures Placed(Drop(steps + [x], |steps|)) == steps
  {
    FoundLast(steps, x);
    hide FindStep;
    assert Drop(steps + [x], |steps|) == steps;
  }

  /** A step added and removed again leaves the playbook as it was. */
  lemma AddedThenRemoved(d: Document, activity: string, key: string, name: Option<string>, loaded: Loaded, later: Loaded)
    requires InOrder(d.activities) && ApplyChange(d, AddStep(activity, key, name), loaded).Some?
    ensures ApplyChange(ApplyChange(d, AddStep(activity, key, name), loaded).value, RemoveStep(activity, key), later) == Some(d)
  {
    AddedStep(d, activity, key, name, loaded);
    var s, at := d.activities, FindActivity(d.activities, activity).value;
    var steps := s[at].steps;
    assert StepsInOrder(steps) && s[at].key == activity;
    hide ApplyChange, FindStep, FindActivity, InOrder, StepsInOrder;
    var x: Step :| x.key == key && x.order == (|steps| + 1) * ORDER_STEP
                   && ApplyChange(d, AddStep(activity, key, name), loaded)
                      == Some(d.(activities := WithSteps(s, at, steps + [x])));
    var once := d.(activities := WithSteps(s, at, steps + [x]));
    LastRemoved(steps, x);
    StepsReplaced(s, at, steps + [x]);
    FoundStill(s, at, once.activities[at], activity);
    RemovesLast(once, activity, at, key, later);
    assert WithSteps(once.activities, at, steps) == s;
  }

  lemma RemovesLast(d: Document, activity: string, at: nat, key: string, loaded: Loaded)
    requires InOrder(d.activities) && FindActivity(d.activities, activity) == Some(at)
    requires FindStep(d.activities[at].steps, key).Some?
    ensures var k := FindStep(d.activities[at].steps, key).value;
            ApplyChange(d, RemoveStep(activity, key), loaded)
            == Some(d.(activities := WithSteps(d.activities, at, Placed(Drop(d.activities[at].steps, k)))))
  {
    var c := RemoveStep(activity, key);
    InOrderIsSorted(d.activities);
    assert ApplyChange(d, c, loaded).Some? by {
      hide Renumbered, StableSort;
    }
    EditDoesWhatItSays(d, c, loaded);
    hide ApplyChange;
  }

  /** Turning an activity off and on again leaves the playbook as it was. */
  lemma DisabledThenEnabled(d: Document, activity: string, loaded: Loaded)
    requires InOrder(d.activities) && FindActivity(d.activities, activity).Some?
    requires d.activities[FindActivity(d.activities, activity).value].enabled
    ensures var once := ApplyChange(d, EnableActivity(activity, false), loaded);
            once.Some? && ApplyChange(once.value, EnableActivity(activity, true), loaded) == Some(d)
  {
    var s, at := d.activities, FindActivity(d.activities, activity).value;
    var off := s[at := s[at].(enabled := false)];
    InOrderChange(d, EnableActivity(activity, false), loaded, off);
    FoundStill(s, at, off[at], activity);
    assert off[at := off[at].(enabled := true)] == s;
    InOrderChange(d.(activities := off), EnableActivity(activity, true), loaded, s);
    hide ApplyChange;
  }

  // ---------------------------------------------------------------- which edits are accepted

  predicate HasActivity(s: seq<Activity>, key: string) {
    exists a :: a in s && a.key == key
  }

  predicate HasStep(a: Activity, key: string) {
    exists step :: step in a.steps && step.key == key
  }

  /** The edit names what there is, and asks for nothing there is already. */
  predicate Acceptable(d: Document, c: Change) {
    match c
    case SetMondayScope(_) => true
    case ClearMondayScope => d.monday.Some?
    case EnableActivity(key, enable) =>
      HasActivity(d.activities, key) || (enable && exists kind :: kind in ACTIVITIES && kind.key == key)
    case MoveActivity(key, anchor) =>
      HasActivity(d.activities, key) && HasActivity(d.activities, anchor.key) && anchor.key != key
    case UpdateIntro(key, _) => HasActivity(d.activities, key)
    case EnableStep(key, step, _) => exists a :: a in d.activities && a.key == key && HasStep(a, step)
    case RemoveStep(key, step) => exists a :: a in d.activities && a.key == key && HasStep(a, step)
    case AddStep(key, step, _) => ValidKey(step) && exists a :: a in d.activities && a.key == key && !HasStep(a, step)
    case MoveStep(key, step, anchor) =>
      anchor.key != step && exists a :: a in d.activities && a.key == key && HasStep(a, step) && HasStep(a, anchor.key)
  }

  lemma {:induction false} KnownExactlyWhen(kinds: seq<ActivityKind>, key: string)
    ensures KnownFrom(kinds, key).Some? <==> exists kind :: kind in kinds && kind.key == key
  {
    if kinds != [] && kinds[0].key != key {
      KnownExactlyWhen(kinds[1..], key);
      assert kinds == [kinds[0]] + kinds[1..];
    }
  }

  lemma StepFoundExactlyWhen(a: Activity, key: string)
    ensures FindStep(a.steps, key).Some? <==> HasStep(a, key)
    ensures FindStep(StableSort(a.steps, StepLeq), key).Some? <==> HasStep(a, key)
  {
    SortElements(a.steps, StepLeq);
    MembersOf(StableSort(a.steps, StepLeq), a.steps);
    StepAmong(a.steps, key);
    StepAmong(StableSort(a.steps, StepLeq), key);
  }

  lemma StepAmong(s: seq<Step>, key: string)
    ensures FindStep(s, key).Some? <==> exists step :: step in s && step.key == key
  {
    if step :| step in s && step.key == key {
      var i :| 0 <= i < |s| && s[i] == step;
    }
  }

  lemma ActivityAmong(s: seq<Activity>, key: string)
    ensures FindActivity(s, key).Some? <==> HasActivity(s, key)
  {
    if a :| a in s && a.key == key {
      var i :| 0 <= i < |s| && s[i] == a;
    }
  }

  lemma StepsRewrittenExactlyWhen(a: Activity, c: Change, loaded: Loaded)
    requires c.EnableStep? || c.MoveStep? || c.AddStep? || c.RemoveStep?
    ensures RewriteSteps(a, c, loaded).Some? <==>
              match c {
                case AddStep(_, step, _) => ValidKey(step) && !HasStep(a, step)
                case MoveStep(_, step, anchor) => anchor.key != step && HasStep(a, step) && HasStep(a, anchor.key)
                case _ => HasStep(a, c.step)
              }
  {
    StepFoundExactlyWhen(a, c.step);
    if c.MoveStep? {
      StepFoundExactlyWhen(a, c.anchor.key);
    }
    hide StableSort, HasStep, ValidKey;
  }

  /** Over every playbook whose activities have distinct keys an edit is accepted exactly when it names what there is. */
  lemma AcceptedExactlyWhen(d: Document, c: Change, loaded: Loaded)
    requires UniqueActivities(d.activities)
    ensures ApplyChange(d, c, loaded).Some? <==> Acceptable(d, c)
  {
    if !SourceChange(c) {
      var s := Ordered(d);
      SortElements(d.activities, ActivityLeq);
      MembersOf(s, d.activities);
      ActivityAmong(s, c.activity);
      KnownExactlyWhen(ACTIVITIES, c.activity);
      assert HasActivity(s, c.activity) <==> HasActivity(d.activities, c.activity);
      if c.MoveActivity? {
        ActivityAmong(s, c.anchor.key);
        assert HasActivity(s, c.anchor.key) <==> HasActivity(d.activities, c.anchor.key);
      }
      var at := FindActivity(s, c.activity);
      if at.Some? {
        assert s[at.value] in d.activities;
        OnlyOneOf(d.activities, s[at.value]);
        if c.EnableStep? || c.MoveStep? || c.AddStep? || c.RemoveStep? {
          StepsRewrittenExactlyWhen(s[at.value], c, loaded);
        }
      }
      hide StableSort, Ordered, Renumber, RewriteSteps, KnownFrom, HasStep, ValidKey, UniqueActivities;
    }
  }

  lemma OnlyOneOf(s: seq<Activity>, a: Activity)
    requires UniqueActivities(s) && a in s
    ensures forall other :: other in s && other.key == a.key ==> other == a
  {
    forall other | other in s && other.key == a.key
      ensures other == a
    {
      var i :| 0 <= i < |s| && s[i] == a;
      var j :| 0 <= j < |s| && s[j] == other;
      assert i < j ==> ActivitiesDiffer(s[i], s[j]);
      assert j < i ==> ActivitiesDiffer(s[j], s[i]);
    }
  }
}
