/**
 The playbook document and the changes that rewrite it: `apply_change` sorts, rewrites and
 renumbers; `apply_changes` folds changes and renumbers once more.
 */
module Playbook {
  import opened Common
  import opened Sorting

  const SCHEMA_VERSION := 1
  const ORDER_STEP := 10

  datatype Step = Step(key: string, name: string, enabled: bool, order: int)

  datatype Activity = Activity(
    key: string,
    name: string,
    enabled: bool,
    order: int,
    freshData: bool,
    intro: string,
    steps: seq<Step>)

  datatype MondayScope = MondayScope(boardId: string, columns: seq<(string, seq<string>)>)

  datatype Document = Document(
    schemaVersion: int,
    playbookId: string,
    finishWithSummary: bool,
    monday: Option<MondayScope>,
    activities: seq<Activity>)

  predicate StepLeq(a: Step, b: Step) {
    a.order <= b.order
  }

  predicate ActivityLeq(a: Activity, b: Activity) {
    a.order <= b.order
  }

  function Ordered(d: Document): seq<Activity> {
    StableSort(d.activities, ActivityLeq)
  }

  // ---------------------------------------------------------------- the registry

  /** Step labels are prose; the key of a registered step stands for its label. */
  datatype ActivityKind = ActivityKind(key: string, name: string, built: bool, stepsAreCapabilities: bool, steps: seq<string>)

  const ACTIVITIES := [
    ActivityKind("email_review", "Email", true, true, []),
    ActivityKind("objectives_review", "Objectives", false, false,
                 ["annual_objectives", "quarterly_objectives", "current_priorities", "at_risk_objectives",
                  "objectives_without_next_actions", "recently_completed_objectives"]),
    ActivityKind("todo_review", "To-Dos", false, false,
                 ["overall_todos", "overdue_todos", "due_today", "blocked_todos", "waiting_todos",
                  "upcoming_todos", "delegated_todos", "completed_since_last_review"]),
    ActivityKind("calendar_review", "Calendar", false, false,
                 ["todays_calendar", "calendar_conflicts", "meeting_preparation", "focus_time",
                  "movable_meetings", "upcoming_deadlines"]),
    ActivityKind("follow_up_review", "Follow-ups", false, false,
                 ["awaiting_reply", "promised_by_me", "overdue_follow_ups"]),
    ActivityKind("session_closeout", "Closeout", true, false, ["session_summary"])]

  function KnownFrom(kinds: seq<ActivityKind>, key: string): Option<ActivityKind> {
    if kinds == [] then None
    else if kinds[0].key == key then Some(kinds[0])
    else KnownFrom(kinds[1..], key)
  }

  function KnownActivity(key: string): Option<ActivityKind> {
    KnownFrom(ACTIVITIES, key)
  }

  /** The configured capabilities: which are enabled, and what each is called. */
  datatype Loaded = Loaded(enabled: set<string>, names: map<string, string>)

  function StepName(activityKey: string, capabilityKey: string, loaded: Loaded): string {
    var kind := KnownActivity(activityKey);
    if kind.Some? && capabilityKey in kind.value.steps then capabilityKey
    else if capabilityKey in loaded.names then loaded.names[capabilityKey]
    else capabilityKey
  }

  // ---------------------------------------------------------------- changes

  datatype Anchor = Before(key: string) | After(key: string)

  datatype Change =
    | EnableActivity(activity: string, enable: bool)
    | MoveActivity(activity: string, anchor: Anchor)
    | EnableStep(activity: string, step: string, enable: bool)
    | MoveStep(activity: string, step: string, anchor: Anchor)
    | AddStep(activity: string, step: string, name: Option<string>)
    | RemoveStep(activity: string, step: string)
    | UpdateIntro(activity: string, intro: string)
    | SetMondayScope(scope: MondayScope)
    | ClearMondayScope

  predicate SourceChange(c: Change) {
    c.SetMondayScope? || c.ClearMondayScope?
  }

  function FindActivity(s: seq<Activity>, key: string): (r: Option<nat>)
    ensures r.Some? ==> r.value < |s| && s[r.value].key == key && forall i :: 0 <= i < r.value ==> s[i].key != key
    ensures r.None? ==> forall i :: 0 <= i < |s| ==> s[i].key != key
  {
    if s == [] then None
    else if s[0].key == key then Some(0)
    else
      var rest := FindActivity(s[1..], key);
      if rest.None? then None else Some(rest.value + 1)
  }

  function FindStep(s: seq<Step>, key: string): (r: Option<nat>)
    ensures r.Some? ==> r.value < |s| && s[r.value].key == key && forall i :: 0 <= i < r.value ==> s[i].key != key
    ensures r.None? ==> forall i :: 0 <= i < |s| ==> s[i].key != key
  {
    if s == [] then None
    else if s[0].key == key then Some(0)
    else
      var rest := FindStep(s[1..], key);
      if rest.None? then None else Some(rest.value + 1)
  }

  function Drop<T>(s: seq<T>, i: nat): seq<T>
    requires i < |s|
  {
    s[..i] + s[i + 1..]
  }

  /** The element at `i` taken out and put back at `to` among the others. */
  function Moved<T>(s: seq<T>, i: nat, to: nat): seq<T>
    requires i < |s| && to < |s|
  {
    Drop(s, i)[..to] + [s[i]] + Drop(s, i)[to..]
  }

  /** Where an element moved from `i` goes to stand beside the one at `j`. */
  function Target(i: nat, j: nat, after: bool): nat
    requires i != j
  {
    (if j < i then j else j - 1) + if after then 1 else 0
  }

  function MaxOrder(s: seq<Step>): int {
    if s == [] then 0
    else if |s| == 1 then s[0].order
    else
      var rest := MaxOrder(s[1..]);
      if rest < s[0].order then s[0].order else rest
  }

  predicate KeyChar(c: char) {
    'a' <= c <= 'z' || '0' <= c <= '9' || c == '_'
  }

  predicate ValidKey(key: string) {
    key != "" && forall i :: 0 <= i < |key| ==> KeyChar(key[i])
  }

  function Added(kind: ActivityKind, s: seq<Activity>): Activity {
    Activity(kind.key, kind.name, true, (if s == [] then 0 else s[|s| - 1].order) + ORDER_STEP, kind.built, "",
             seq(|kind.steps|, i requires 0 <= i < |kind.steps| =>
                   Step(kind.steps[i], kind.steps[i], true, (i + 1) * ORDER_STEP)))
  }

  /** `None` is a `ChangeRefused`, or a step the model will not hold. */
  function Rewrite(s: seq<Activity>, c: Change, loaded: Loaded): Option<seq<Activity>>
    requires !SourceChange(c)
  {
    var at := FindActivity(s, c.activity);
    if c.EnableActivity? then
      if at.Some? then Some(s[at.value := s[at.value].(enabled := c.enable)])
      else if !c.enable || KnownActivity(c.activity).None? then None
      else Some(s + [Added(KnownActivity(c.activity).value, s)])
    else if at.None? then None
    else if c.MoveActivity? then
      var beside := FindActivity(s, c.anchor.key);
      if c.anchor.key == c.activity || beside.None? then None
      else Some(Moved(s, at.value, Target(at.value, beside.value, c.anchor.After?)))
    else if c.UpdateIntro? then Some(s[at.value := s[at.value].(intro := c.intro)])
    else
      var steps := RewriteSteps(s[at.value], c, loaded);
      if steps.None? then None else Some(s[at.value := s[at.value].(steps := steps.value)])
  }

  function RewriteSteps(a: Activity, c: Change, loaded: Loaded): Option<seq<Step>>
    requires c.EnableStep? || c.MoveStep? || c.AddStep? || c.RemoveStep?
  {
    var at := FindStep(a.steps, c.step);
    match c
    case EnableStep(_, _, enable) =>
      if at.None? then None else Some(a.steps[at.value := a.steps[at.value].(enabled := enable)])
    case MoveStep(_, key, anchor) =>
      if at.None? || anchor.key == key || FindStep(a.steps, anchor.key).None? then None
      else MoveWithin(StableSort(a.steps, StepLeq), key, anchor)
    case AddStep(_, key, name) =>
      if at.Some? || !ValidKey(key) then None
      else
        var called := if name.Some? && name.value != "" then name.value else StepName(a.key, key, loaded);
        Some(a.steps + [Step(key, called, true, MaxOrder(a.steps) + ORDER_STEP)])
    case RemoveStep(_, _) =>
      if at.None? then None else Some(Drop(a.steps, at.value))
  }

  /** The list `move_step` makes: reordered, with every `order` left as it was. */
  function MoveWithin(ordered: seq<Step>, key: string, anchor: Anchor): Option<seq<Step>> {
    var at, beside := FindStep(ordered, key), FindStep(ordered, anchor.key);
    if at.None? || beside.None? || at == beside then None
    else Some(Moved(ordered, at.value, Target(at.value, beside.value, anchor.After?)))
  }

  function RenumberSteps(s: seq<Step>): (r: seq<Step>)
    ensures |r| == |s|
  {
    SortElements(s, StepLeq);
    var sorted := StableSort(s, StepLeq);
    seq(|s|, i requires 0 <= i < |s| => sorted[i].(order := (i + 1) * ORDER_STEP))
  }

  /** Activities by list position; the steps of each by their old `order`. */
  function Renumbered(s: seq<Activity>): (r: seq<Activity>)
    ensures |r| == |s|
  {
    seq(|s|, i requires 0 <= i < |s| =>
          s[i].(order := (i + 1) * ORDER_STEP, steps := RenumberSteps(s[i].steps)))
  }

  function Renumber(d: Document): Document {
    d.(activities := Renumbered(d.activities))
  }

  function ApplyChange(d: Document, c: Change, loaded: Loaded): Option<Document> {
    match c
    case SetMondayScope(scope) => Some(d.(monday := Some(scope)))
    case ClearMondayScope => if d.monday.None? then None else Some(d.(monday := None))
    case _ =>
      var changed := Rewrite(Ordered(d), c, loaded);
      if changed.None? then None else Some(Renumber(d.(activities := changed.value)))
  }

  function ApplyEach(d: Document, changes: seq<Change>, loaded: Loaded): Option<Document>
    decreases |changes|
  {
    if changes == [] then Some(d)
    else
      var first := ApplyChange(d, changes[0], loaded);
      if first.None? then None else ApplyEach(first.value, changes[1..], loaded)
  }

  function ApplyChanges(d: Document, changes: seq<Change>, loaded: Loaded): Option<Document> {
    if changes == [] then None
    else
      var worked := ApplyEach(d, changes, loaded);
      if worked.None? then None else Some(Renumber(worked.value))
  }
}
