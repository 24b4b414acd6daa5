/** The state of a review, recomputed from its rows, and the group it is on. */
module ReviewStates {
  import opened Common
  import opened Sorting
  import opened ReviewDecisions
  import opened ReviewPlans

  datatype Rules = Rules(requireAllDecided: bool, requireExecuted: bool)

  const DEFAULT_RULES := Rules(true, true)

  datatype GroupState = Pending | InProgress | AwaitingActions | Completed

  datatype RunState = NotStarted | Underway | Awaiting | Finished | Abandoned

  datatype Group = Group(key: string, rows: seq<RowState>, state: GroupState, startedAt: Option<int>, completedAt: Option<int>)

  datatype Review = Review(state: RunState, completedAt: Option<int>, plan: Option<Plan>, groups: seq<Group>)

  predicate Unexecuted(r: RowState) {
    r.IsApproved? || r.IsFailed?
  }

  function GroupStateOf(rules: Rules, rows: seq<RowState>): GroupState {
    if rows == [] then Completed
    else if rules.requireAllDecided && IsPending in rows then
      if forall r :: r in rows ==> r.IsPending? then Pending else InProgress
    else if rules.requireExecuted && (IsApproved in rows || IsFailed in rows) then AwaitingActions
    else Completed
  }

  function RefreshGroup(rules: Rules, g: Group, now: int): Group {
    var state := GroupStateOf(rules, g.rows);
    g.(state := state,
       startedAt := if state != Pending && g.startedAt.None? then Some(now) else g.startedAt,
       completedAt := if state != Completed then None else if g.completedAt.Some? then g.completedAt else Some(now))
  }

  function RefreshGroups(rules: string -> Rules, groups: seq<Group>, now: int): (r: seq<Group>)
    ensures |r| == |groups| && forall i :: 0 <= i < |r| ==> r[i] == RefreshGroup(rules(groups[i].key), groups[i], now)
  {
    seq(|groups|, i requires 0 <= i < |groups| => RefreshGroup(rules(groups[i].key), groups[i], now))
  }

  // ---------------------------------------------------------------- the order of work

  /** Where a plan puts a group: its last mention, or after every group mentioned. */
  function PlanPosition(sequence: seq<string>, key: string): nat {
    if key !in sequence then |Elements(sequence)|
    else if sequence[|sequence| - 1] == key then |sequence| - 1
    else
      assert sequence == sequence[..|sequence| - 1] + [sequence[|sequence| - 1]];
      LastMention(sequence[..|sequence| - 1], key)
  }

  function LastMention(sequence: seq<string>, key: string): (n: nat)
    requires key in sequence
    ensures n < |sequence| && sequence[n] == key && key !in sequence[n + 1..]
  {
    if sequence[|sequence| - 1] == key then |sequence| - 1
    else
      assert sequence == sequence[..|sequence| - 1] + [sequence[|sequence| - 1]];
      var n := LastMention(sequence[..|sequence| - 1], key);
      assert sequence[n + 1..] == sequence[..|sequence| - 1][n + 1..] + [sequence[|sequence| - 1]];
      n
  }

  function ByPlan(sequence: seq<string>): (Group, Group) -> bool {
    (a: Group, b: Group) => PlanPosition(sequence, a.key) <= PlanPosition(sequence, b.key)
  }

  function Kept(groups: seq<Group>, skipped: set<string>): (r: seq<Group>)
    ensures forall g :: g in r <==> g in groups && g.key !in skipped
  {
    if groups == [] then []
    else
      assert groups == [groups[0]] + groups[1..];
      (if groups[0].key in skipped then [] else [groups[0]]) + Kept(groups[1..], skipped)
  }

  /** The groups a review will work, in the order it agreed to. */
  function PlannedGroups(plan: Option<Plan>, groups: seq<Group>): seq<Group> {
    if plan.None? then groups
    else StableSort(Kept(groups, plan.value.skipped), ByPlan(plan.value.sequence))
  }

  predicate Begun(r: Review) {
    r.plan.None? || r.plan.value.active
  }

  function FirstUnfinished(planned: seq<Group>): (r: Option<Group>)
    ensures r.None? <==> forall g :: g in planned ==> g.state.Completed?
    ensures r.Some? ==> exists k :: 0 <= k < |planned| && planned[k] == r.value && !r.value.state.Completed?
                                    && forall i :: 0 <= i < k ==> planned[i].state.Completed?
  {
    if planned == [] then None
    else if !planned[0].state.Completed? then Some(planned[0])
    else
      assert planned == [planned[0]] + planned[1..];
      FirstUnfinished(planned[1..])
  }

  function CurrentGroup(r: Review): Option<Group> {
    if Begun(r) then FirstUnfinished(PlannedGroups(r.plan, r.groups)) else None
  }

  // ---------------------------------------------------------------- refreshing

  function PlanFor(r: Review, enabled: seq<string>, now: int): Plan {
    if r.plan.Some? then r.plan.value else Written(enabled, !r.state.NotStarted?, now)
  }

  function SettlePlan(p: Plan, now: int): Plan {
    if p.active then p else p.(active := true, begunAt := Some(now), begunBy := Some(SYSTEM_ACTOR))
  }

  predicate AllCompleted(planned: seq<Group>) {
    planned != [] && forall g :: g in planned ==> g.state.Completed?
  }

  predicate AnyDecided(planned: seq<Group>) {
    exists g :: g in planned && exists r :: r in g.rows && !r.IsPending?
  }

  predicate AllDecidedOrDone(planned: seq<Group>) {
    planned != [] && forall g :: g in planned ==> g.state.Completed? || g.state.AwaitingActions?
  }

  function Stated(r: Review, planned: seq<Group>, plan: Plan, now: int): Review {
    if AllCompleted(planned) then
      r.(state := Finished, completedAt := if r.completedAt.Some? then r.completedAt else Some(now),
         plan := Some(SettlePlan(plan, now)))
    else if !AnyDecided(planned) then r.(state := NotStarted, completedAt := None, plan := Some(plan))
    else if AllDecidedOrDone(planned) then r.(state := Awaiting, completedAt := None, plan := Some(plan))
    else r.(state := Underway, completedAt := None, plan := Some(plan))
  }

  function Refresh(rules: string -> Rules, enabled: seq<string>, r: Review, now: int): Review {
    var plan := PlanFor(r, enabled, now);
    if r.state.Abandoned? then r.(plan := Some(plan))
    else
      var groups := RefreshGroups(rules, r.groups, now);
      Stated(r.(groups := groups), PlannedGroups(Some(plan), groups), plan, now)
  }

  // ---------------------------------------------------------------- what refreshing keeps

  /** An abandoned review is reported as it was left; at most it is given the plan it never had. */
  lemma AbandonedIsLeft(rules: string -> Rules, enabled: seq<string>, r: Review, now: int)
    requires r.state.Abandoned?
    ensures var after := Refresh(rules, enabled, r, now);
            after.(plan := r.plan) == r && (r.plan.Some? ==> after == r)
  {
  }

  lemma GroupsRefreshOnce(rules: string -> Rules, groups: seq<Group>, now: int, later: int)
    ensures var once := RefreshGroups(rules, groups, now); RefreshGroups(rules, once, later) == once
  {
    var once := RefreshGroups(rules, groups, now);
    hide GroupStateOf;
    assert forall i :: 0 <= i < |once| ==> once[i].key == groups[i].key && once[i].rows == groups[i].rows;
  }

  /** Recomputing again, at any later moment, changes nothing. */
  lemma RefreshIsIdempotent(rules: string -> Rules, enabled: seq<string>, r: Review, now: int, later: int)
    ensures var once := Refresh(rules, enabled, r, now);
            Refresh(rules, enabled, once, later) == once
  {
    GroupsRefreshOnce(rules, r.groups, now, later);
    hide RefreshGroups, AllCompleted, AnyDecided, AllDecidedOrDone, Kept, StableSort, ByPlan, Written;
  }

  predicate OpenRow(r: RowState) {
    r.IsPending? || Unexecuted(r)
  }

  lemma GroupCompletesExactlyWhen(rows: seq<RowState>)
    ensures GroupStateOf(DEFAULT_RULES, rows).Completed? <==> forall r :: r in rows ==> !OpenRow(r)
  {
    if exists r :: r in rows && OpenRow(r) {
      var r :| r in rows && OpenRow(r);
      assert r == IsPending || r == IsApproved || r == IsFailed;
    }
  }

  /** Completed means every planned group is; planning again afterwards plans the same. */
  lemma RefreshedPlan(rules: string -> Rules, enabled: seq<string>, r: Review, now: int)
    requires !r.state.Abandoned?
    ensures var after, plan := Refresh(rules, enabled, r, now), PlanFor(r, enabled, now);
            && after.groups == RefreshGroups(rules, r.groups, now)
            && PlannedGroups(after.plan, after.groups) == PlannedGroups(Some(plan), after.groups)
            && (after.state.Finished? <==> AllCompleted(PlannedGroups(Some(plan), after.groups)))
            && (after.completedAt.Some? ==> after.state.Finished?)
            && (after.state.Finished? ==> Begun(after))
  {
    hide RefreshGroups, AllCompleted, AnyDecided, AllDecidedOrDone, PlanFor, Kept, StableSort, ByPlan;
  }

  /**
   Under the default rules a review is completed exactly when it has a planned group and no
   planned group holds a row undecided, approved and not done, or failed.
   */
  lemma CompletedExactlyWhen(rules: string -> Rules, enabled: seq<string>, r: Review, now: int)
    requires !r.state.Abandoned? && forall k :: rules(k) == DEFAULT_RULES
    ensures var after := Refresh(rules, enabled, r, now);
            var planned := PlannedGroups(after.plan, after.groups);
            after.state.Finished? <==>
              planned != [] && forall g :: g in planned ==> forall row :: row in g.rows ==> !OpenRow(row)
  {
    var after, plan := Refresh(rules, enabled, r, now), PlanFor(r, enabled, now);
    RefreshedPlan(rules, enabled, r, now);
    var planned := PlannedGroups(Some(plan), after.groups);
    PlannedAreKept(plan, after.groups);
    hide Refresh, PlanFor, PlannedGroups, Kept, GroupStateOf, OpenRow;
    forall g | g in planned
      ensures g.state.Completed? <==> forall row :: row in g.rows ==> !OpenRow(row)
    {
      assert g in after.groups;
      var i :| 0 <= i < |after.groups| && after.groups[i] == g;
      GroupCompletesExactlyWhen(g.rows);
    }
  }

  const UNDECIDED := {IsPending}
  const UNDONE := {IsApproved, IsFailed}
  const DECIDED := {IsApproved, IsExecuted, IsFailed, IsDismissed, IsDeferred}

  ghost predicate SomeRow(planned: seq<Group>, states: set<RowState>) {
    exists g, r :: g in planned && r in g.rows && r in states
  }

  lemma GroupAwaitsExactlyWhen(rows: seq<RowState>)
    ensures GroupStateOf(DEFAULT_RULES, rows).Completed? || GroupStateOf(DEFAULT_RULES, rows).AwaitingActions?
            <==> IsPending !in rows
  {
  }

  /**
   Under the default rules the other three states are told apart by the planned rows alone: a
   review awaits actions when every row is decided and some are not done, is under way when some
   are decided and some not, and otherwise has not started.
   */
  lemma StatesExactlyWhen(rules: string -> Rules, enabled: seq<string>, r: Review, now: int)
    requires !r.state.Abandoned? && forall k :: rules(k) == DEFAULT_RULES
    ensures var after := Refresh(rules, enabled, r, now);
            var planned := PlannedGroups(after.plan, after.groups);
            var undecided, undone := SomeRow(planned, UNDECIDED), SomeRow(planned, UNDONE);
            var decided := SomeRow(planned, DECIDED);
            && (after.state.Finished? <==> planned != [] && !undecided && !undone)
            && (after.state.Awaiting? <==> !undecided && undone)
            && (after.state.Underway? <==> undecided && decided)
            && (after.state.NotStarted? <==> !decided && (undecided || planned == []))
  {
    var after, plan := Refresh(rules, enabled, r, now), PlanFor(r, enabled, now);
    RefreshedPlan(rules, enabled, r, now);
    CompletedExactlyWhen(rules, enabled, r, now);
    var planned := PlannedGroups(Some(plan), after.groups);
    PlannedAreKept(plan, after.groups);
    StatedBy(r.(groups := after.groups), planned, plan, now);
    assert after == Stated(r.(groups := after.groups), planned, plan, now);
    hide Refresh, PlanFor, PlannedGroups, Kept, GroupStateOf, Stated, RefreshGroups;
    forall g | g in planned
      ensures g.state.Completed? || g.state.AwaitingActions? <==> IsPending !in g.rows
    {
      assert g in after.groups;
      var i :| 0 <= i < |after.groups| && after.groups[i] == g;
      GroupAwaitsExactlyWhen(g.rows);
    }
    RowsTell(planned);
  }

  lemma StatedBy(r: Review, planned: seq<Group>, plan: Plan, now: int)
    ensures var after := Stated(r, planned, plan, now);
            && (after.state.Finished? <==> AllCompleted(planned))
            && (after.state.NotStarted? <==> !AllCompleted(planned) && !AnyDecided(planned))
            && (after.state.Awaiting? <==> !AllCompleted(planned) && AnyDecided(planned) && AllDecidedOrDone(planned))
            && (after.state.Underway? <==> !AllCompleted(planned) && AnyDecided(planned) && !AllDecidedOrDone(planned))
  {
  }

  /** What the three questions asked of the groups come to, asked of their rows. */
  lemma RowsTell(planned: seq<Group>)
    requires forall g :: g in planned ==> (g.state.Completed? || g.state.AwaitingActions? <==> IsPending !in g.rows)
    ensures AnyDecided(planned) <==> SomeRow(planned, DECIDED)
    ensures AllDecidedOrDone(planned) <==> planned != [] && !SomeRow(planned, UNDECIDED)
    ensures (forall g :: g in planned ==> forall row :: row in g.rows ==> !OpenRow(row)) <==>
              !SomeRow(planned, UNDECIDED) && !SomeRow(planned, UNDONE)
    ensures SomeRow(planned, UNDONE) ==> SomeRow(planned, DECIDED)
    ensures planned == [] ==> !SomeRow(planned, UNDONE) && !SomeRow(planned, DECIDED)
  {
    forall r: RowState
      ensures !r.IsPending? <==> r in DECIDED
      ensures Unexecuted(r) <==> r in UNDONE
    {
    }
    hide Unexecuted;
    if AnyDecided(planned) {
      var g :| g in planned && exists r :: r in g.rows && !r.IsPending?;
      var r :| r in g.rows && !r.IsPending?;
      assert SomeRow(planned, DECIDED);
    }
    if SomeRow(planned, DECIDED) {
      var g, r :| g in planned && r in g.rows && r in DECIDED;
      assert AnyDecided(planned);
    }
    if SomeRow(planned, UNDONE) {
      var g, r :| g in planned && r in g.rows && r in UNDONE;
      assert r in DECIDED;
    }
  }

  lemma PlannedAreKept(plan: Plan, groups: seq<Group>)
    ensures var planned := PlannedGroups(Some(plan), groups);
            && multiset(planned) == multiset(Kept(groups, plan.skipped))
            && forall g :: g in planned <==> g in groups && g.key !in plan.skipped
  {
    SortElements(Kept(groups, plan.skipped), ByPlan(plan.sequence));
    MembersOf(PlannedGroups(Some(plan), groups), Kept(groups, plan.skipped));
  }

  ghost predicate StoodBefore(s: seq<Group>, a: Group, b: Group) {
    exists i, j :: 0 <= i < j < |s| && s[i] == a && s[j] == b
  }

  /** Groups come in the agreed order, those the plan does not place in the order they were stored. */
  lemma PlannedInAgreedOrder(plan: Plan, groups: seq<Group>)
    ensures var planned, kept := PlannedGroups(Some(plan), groups), Kept(groups, plan.skipped);
            forall i, j :: 0 <= i < j < |planned| ==>
              var a, b := PlanPosition(plan.sequence, planned[i].key), PlanPosition(plan.sequence, planned[j].key);
              a < b || (a == b && StoodBefore(kept, planned[i], planned[j]))
  {
    var kept := Kept(groups, plan.skipped);
    var tie := (a: Group, b: Group) => StoodBefore(kept, a, b);
    hide PlanPosition, Kept;
    SortSorts(kept, ByPlan(plan.sequence), tie);
  }

  /** Once begun, a review has a group to be on exactly while some planned group is not completed, and it is the first. */
  lemma CurrentExactlyWhen(r: Review)
    requires Begun(r)
    ensures CurrentGroup(r).None? <==> forall g :: g in PlannedGroups(r.plan, r.groups) ==> g.state.Completed?
    ensures CurrentGroup(r).Some? ==>
              var planned := PlannedGroups(r.plan, r.groups);
              exists k :: 0 <= k < |planned| && planned[k] == CurrentGroup(r).value && !planned[k].state.Completed?
                          && forall i :: 0 <= i < k ==> planned[i].state.Completed?
  {
    hide PlannedGroups;
  }

  /** A refreshed review that is completed is begun and on no group; one that is not and has been begun is on one. */
  lemma RefreshedReviewIsOn(rules: string -> Rules, enabled: seq<string>, r: Review, now: int)
    requires !r.state.Abandoned?
    ensures var after := Refresh(rules, enabled, r, now);
            && (after.state.Finished? ==> Begun(after) && CurrentGroup(after).None?)
            && (!after.state.Finished? && Begun(after) && PlannedGroups(after.plan, after.groups) != [] ==> CurrentGroup(after).Some?)
            && (after.completedAt.Some? ==> after.state.Finished?)
  {
    RefreshedPlan(rules, enabled, r, now);
    hide Refresh, PlannedGroups, RefreshGroups, PlanFor, Begun;
  }

  // ---------------------------------------------------------------- each group

  /**
   Whatever the rules: a group is pending while nothing of it is decided and all must be, in
   progress while only some is, waiting once what is left is to be carried out and must be, and
   completed otherwise.
   */
  lemma GroupStateExactlyWhen(rules: Rules, rows: seq<RowState>)
    ensures var undecided := rules.requireAllDecided && exists r :: r in rows && r == IsPending;
            var undone := rules.requireExecuted && exists r :: r in rows && (r == IsApproved || r == IsFailed);
            var state := GroupStateOf(rules, rows);
            && (state.Pending? <==> undecided && forall r :: r in rows ==> r == IsPending)
            && (state.InProgress? <==> undecided && exists r :: r in rows && r != IsPending)
            && (state.AwaitingActions? <==> !undecided && undone)
            && (state.Completed? <==> !undecided && !undone)
  {
    assert IsPending in rows <==> exists r :: r in rows && r == IsPending;
  }

  /** A group is begun the first time something of it is decided, and completed the first time of the last time it is. */
  lemma GroupTimes(rules: Rules, g: Group, now: int)
    ensures var after := RefreshGroup(rules, g, now);
            && after.key == g.key && after.rows == g.rows
            && (after.startedAt == if g.startedAt.Some? then g.startedAt
                                   else if after.state.Pending? then None else Some(now))
            && (after.completedAt == if !after.state.Completed? then None
                                     else if g.completedAt.Some? then g.completedAt else Some(now))
  {
  }

  /** A group the plan mentions stands at its last mention, and one it does not after as many as it mentions. */
  lemma PlanPositionStands(sequence: seq<string>, key: string)
    ensures var n := PlanPosition(sequence, key);
            if key in sequence then n < |sequence| && sequence[n] == key && key !in sequence[n + 1..]
            else n == |Elements(sequence)|
  {
    if key in sequence {
      if sequence[|sequence| - 1] != key {
        var front := sequence[..|sequence| - 1];
        assert sequence == front + [sequence[|sequence| - 1]];
        var n := LastMention(front, key);
        assert sequence[n + 1..] == front[n + 1..] + [sequence[|sequence| - 1]];
      }
    }
  }
}

/** The rows of one review, refreshed in place. */
module ReviewStateRows {
  import opened Common
  import opened ReviewDecisions
  import opened ReviewPlans
  import opened ReviewStates

  class ReviewGroup {
    const key: string
    var rows: seq<RowState>
    var state: GroupState
    var startedAt: Option<int>
    var completedAt: Option<int>

    constructor (key: string)
      ensures Value() == Group(key, [], Pending, None, None)
    {
      this.key := key;
      rows, state, startedAt, completedAt := [], Pending, None, None;
    }

    function Value(): Group
      reads this
    {
      Group(key, rows, state, startedAt, completedAt)
    }
  }

  function Values(groups: seq<ReviewGroup>): (r: seq<Group>)
    reads groups
    ensures |r| == |groups| && forall i :: 0 <= i < |r| ==> r[i] == groups[i].Value()
  {
    seq(|groups|, i requires 0 <= i < |groups| reads groups => groups[i].Value())
  }

  class ReviewRun {
    var state: RunState
    var completedAt: Option<int>
    var plan: Option<Plan>
    const groups: seq<ReviewGroup>

    constructor (groups: seq<ReviewGroup>)
      ensures this.groups == groups && Value() == Review(NotStarted, None, None, Values(groups))
    {
      this.groups := groups;
      state, completedAt, plan := NotStarted, None, None;
    }

    function Value(): Review
      reads this, groups
    {
      Review(state, completedAt, plan, Values(groups))
    }

    method RefreshEach(rules: string -> Rules, now: int)
      requires forall i, j :: 0 <= i < j < |groups| ==> groups[i] != groups[j]
      modifies groups
      ensures Values(groups) == RefreshGroups(rules, old(Values(groups)), now)
    {
      hide GroupStateOf;
      for n := 0 to |groups|
        invariant forall i :: 0 <= i < n ==>
                    groups[i].Value() == RefreshGroup(rules(groups[i].key), old(groups[i].Value()), now)
        invariant forall i :: n <= i < |groups| ==> groups[i].Value() == old(groups[i].Value())
      {
        var g := groups[n];
        g.state := GroupStateOf(rules(g.key), g.rows);
        if g.state != Pending && g.startedAt.None? {
          g.startedAt := Some(now);
        }
        if g.state == Completed {
          g.completedAt := if g.completedAt.Some? then g.completedAt else Some(now);
        } else {
          g.completedAt := None;
        }
      }
    }

    method RefreshStates(rules: string -> Rules, enabled: seq<string>, now: int)
      requires forall i, j :: 0 <= i < j < |groups| ==> groups[i] != groups[j]
      modifies this, groups
      ensures Value() == Refresh(rules, enabled, old(Value()), now)
    {
      hide PlanFor, PlannedGroups, RefreshGroups, AnyDecided, AllDecidedOrDone, AllCompleted, SettlePlan;
      var agreed := PlanFor(Value(), enabled, now);
      plan := Some(agreed);
      if state == Abandoned {
        return;
      }
      RefreshEach(rules, now);
      var planned := PlannedGroups(plan, Values(groups));
      if AllCompleted(planned) {
        state := Finished;
        completedAt := if completedAt.Some? then completedAt else Some(now);
        plan := Some(SettlePlan(agreed, now));
      } else if !AnyDecided(planned) {
        state, completedAt := NotStarted, None;
      } else if AllDecidedOrDone(planned) {
        state, completedAt := Awaiting, None;
      } else {
        state, completedAt := Underway, None;
      }
    }
  }
}

/** Fresh reviews of one day and scope: each the next revision, setting the one before aside. */
module ReviewRevisions {
  import opened Common
  import opened ReviewStates

  datatype Key = Key(date: int, channel: string, scope: string)

  datatype Entry = Entry(key: Key, revision: nat, state: RunState, abandonedAt: Option<int>, supersedes: Option<nat>)

  type Table = seq<Entry>

  function Highest(t: Table, key: Key): nat {
    if t == [] then 0
    else
      var before, last := Highest(t[..|t| - 1], key), t[|t| - 1];
      if last.key == key && last.revision > before then last.revision else before
  }

  /** The latest revision nobody abandoned. */
  function Current(t: Table, key: Key): (r: Option<nat>)
    ensures r.Some? ==> r.value < |t| && t[r.value].key == key && !t[r.value].state.Abandoned?
  {
    if t == [] then None
    else
      var before, last := Current(t[..|t| - 1], key), t[|t| - 1];
      if last.key == key && !last.state.Abandoned? && (before.None? || last.revision > t[before.value].revision)
      then Some(|t| - 1) else before
  }

  function OpenFresh(t: Table, key: Key, now: int): Table {
    var superseded := Current(t, key);
    var left := if superseded.None? then t
                else t[superseded.value := t[superseded.value].(state := Abandoned, abandonedAt := Some(now))];
    left + [Entry(key, Highest(left, key) + 1, NotStarted, None, superseded)]
  }

  /** Reviews are opened afresh, and any other work on one only moves it between the states of a review under way. */
  datatype Command = Open(key: Key, now: int) | Refreshed(id: nat, state: RunState)

  function Step(t: Table, c: Command): Table {
    match c
    case Open(key, now) => OpenFresh(t, key, now)
    case Refreshed(id, state) =>
      if id < |t| && !t[id].state.Abandoned? && !state.Abandoned? then t[id := t[id].(state := state)] else t
  }

  function Run(t: Table, cs: seq<Command>): Table
    decreases |cs|
  {
    if cs == [] then t else Run(Step(t, cs[0]), cs[1..])
  }

  function CountOf(t: Table, key: Key): nat {
    if t == [] then 0 else CountOf(t[..|t| - 1], key) + if t[|t| - 1].key == key then 1 else 0
  }

  function LastOf(t: Table, key: Key): (r: Option<nat>)
    ensures r.Some? ==> r.value < |t| && t[r.value].key == key && forall i :: r.value < i < |t| ==> t[i].key != key
    ensures r.None? ==> forall i :: 0 <= i < |t| ==> t[i].key != key
  {
    if t == [] then None else if t[|t| - 1].key == key then Some(|t| - 1) else LastOf(t[..|t| - 1], key)
  }

  /** An entry is the next revision after the last of its key before it. */
  ghost predicate Follows(t: Table, i: nat)
    requires i < |t|
  {
    t[i].revision == CountOf(t[..i], t[i].key) + 1 && t[i].supersedes == LastOf(t[..i], t[i].key)
  }

  ghost predicate LeftIfReplaced(t: Table, i: nat)
    requires i < |t|
  {
    (t[i].state.Abandoned? <==> LastOf(t, t[i].key) != Some(i)) && (t[i].state.Abandoned? <==> t[i].abandonedAt.Some?)
  }

  /** Revisions of a key are 1, 2, 3, ..., each naming the one before, and all but the last abandoned. */
  ghost predicate Ladder(t: Table) {
    forall i :: 0 <= i < |t| ==> Follows(t, i) && LeftIfReplaced(t, i)
  }

  lemma {:induction false} HighestIsCount(t: Table, key: Key)
    requires forall i :: 0 <= i < |t| ==> Follows(t, i)
    ensures Highest(t, key) == CountOf(t, key)
  {
    if t != [] {
      var front := t[..|t| - 1];
      forall i | 0 <= i < |front|
        ensures Follows(front, i)
      {
        assert Follows(t, i) && front[..i] == t[..i];
      }
      HighestIsCount(front, key);
      assert Follows(t, |t| - 1);
    }
  }

  lemma {:induction false} CurrentOfPrefix(t: Table, n: nat, key: Key)
    requires n <= |t| && forall i :: 0 <= i < n && t[i].key == key && !t[i].state.Abandoned? ==> LastOf(t, key) == Some(i)
    ensures Current(t[..n], key)
            == if LastOf(t, key).Some? && LastOf(t, key).value < n && !t[LastOf(t, key).value].state.Abandoned?
               then LastOf(t, key) else None
  {
    if n > 0 {
      assert t[..n][..n - 1] == t[..n - 1];
      CurrentOfPrefix(t, n - 1, key);
    }
  }

  lemma CurrentIsLast(t: Table, key: Key)
    requires Ladder(t)
    ensures Current(t, key) == LastOf(t, key)
  {
    assert t[..|t|] == t;
    hide Current, LastOf, CountOf;
    forall i | 0 <= i < |t| && t[i].key == key && !t[i].state.Abandoned?
      ensures LastOf(t, key) == Some(i)
    {
      assert LeftIfReplaced(t, i);
    }
    assert LastOf(t, key).Some? ==> LeftIfReplaced(t, LastOf(t, key).value);
    CurrentOfPrefix(t, |t|, key);
  }

  lemma {:induction false} MarkKeepsCounts(t: Table, id: nat, e: Entry, key: Key)
    requires id < |t| && e.key == t[id].key
    ensures CountOf(t[id := e], key) == CountOf(t, key) && LastOf(t[id := e], key) == LastOf(t, key)
  {
    var after, front := t[id := e], t[..|t| - 1];
    if id == |t| - 1 {
      assert after[..|t| - 1] == front;
    } else {
      assert after[..|t| - 1] == front[id := e];
      MarkKeepsCounts(front, id, e, key);
    }
  }

  lemma MarkFollows(t: Table, id: nat, e: Entry, i: nat)
    requires id < |t| && i < |t| && Follows(t, i)
    requires e.key == t[id].key && e.revision == t[id].revision && e.supersedes == t[id].supersedes
    ensures Follows(t[id := e], i)
  {
    if id < i {
      assert t[id := e][..i] == t[..i][id := e];
      MarkKeepsCounts(t[..i], id, e, t[i].key);
    } else {
      assert t[id := e][..i] == t[..i];
    }
  }

  /** Changing the state of one entry renumbers none. */
  lemma MarkAllFollow(t: Table, id: nat, e: Entry)
    requires id < |t| && forall i :: 0 <= i < |t| ==> Follows(t, i)
    requires e.key == t[id].key && e.revision == t[id].revision && e.supersedes == t[id].supersedes
    ensures var after := t[id := e];
            && (forall i :: 0 <= i < |t| ==> Follows(after, i))
            && forall key :: LastOf(after, key) == LastOf(t, key) && CountOf(after, key) == CountOf(t, key)
  {
    var after := t[id := e];
    forall i | 0 <= i < |t|
      ensures Follows(after, i)
    {
      MarkFollows(t, id, e, i);
    }
    forall key
      ensures LastOf(after, key) == LastOf(t, key) && CountOf(after, key) == CountOf(t, key)
    {
      MarkKeepsCounts(t, id, e, key);
    }
  }

  lemma AppendFollows(left: Table, e: Entry)
    requires forall i :: 0 <= i < |left| ==> Follows(left, i)
    requires e.revision == CountOf(left, e.key) + 1 && e.supersedes == LastOf(left, e.key)
    ensures forall i :: 0 <= i <= |left| ==> Follows(left + [e], i)
    ensures forall key :: LastOf(left + [e], key) == if key == e.key then Some(|left|) else LastOf(left, key)
  {
    var after := left + [e];
    assert after[..|after| - 1] == left;
    forall key
      ensures LastOf(after, key) == if key == e.key then Some(|left|) else LastOf(left, key)
    {
    }
    hide LastOf, CountOf;
    forall i | 0 <= i < |left|
      ensures Follows(after, i)
    {
      assert Follows(left, i) && after[..i] == left[..i];
    }
    assert after[..|left|] == left;
    assert Follows(after, |left|);
  }

  /** The table with the current review of the key set aside. */
  lemma SetAsideLeaves(t: Table, key: Key, now: int)
    requires Ladder(t) && Current(t, key) == LastOf(t, key)
    ensures var superseded := Current(t, key);
            var left := if superseded.None? then t
                        else t[superseded.value := t[superseded.value].(state := Abandoned, abandonedAt := Some(now))];
            && (forall i :: 0 <= i < |t| ==> Follows(left, i))
            && (forall k :: LastOf(left, k) == LastOf(t, k))
            && (forall i :: 0 <= i < |t| && t[i].key == key ==> left[i].state.Abandoned? && left[i].abandonedAt.Some?)
            && (forall i :: 0 <= i < |t| && t[i].key != key ==> left[i] == t[i])
            && (forall i :: 0 <= i < |t| ==> left[i].key == t[i].key)
  {
    var superseded := Current(t, key);
    if superseded.Some? {
      MarkAllFollow(t, superseded.value, t[superseded.value].(state := Abandoned, abandonedAt := Some(now)));
    }
    hide Follows, LastOf, Current;
    var left := if superseded.None? then t
                else t[superseded.value := t[superseded.value].(state := Abandoned, abandonedAt := Some(now))];
    forall i | 0 <= i < |t| && t[i].key == key
      ensures left[i].state.Abandoned? && left[i].abandonedAt.Some?
    {
      assert LeftIfReplaced(t, i);
    }
  }

  lemma OpenIsLadder(t: Table, key: Key, now: int)
    requires Ladder(t)
    ensures Ladder(OpenFresh(t, key, now))
    ensures var after := OpenFresh(t, key, now);
            && LastOf(after, key) == Some(|t|) && Current(after, key) == Some(|t|)
            && forall i :: 0 <= i < |t| && t[i].key != key ==> after[i] == t[i]
  {
    CurrentIsLast(t, key);
    SetAsideLeaves(t, key, now);
    var superseded := Current(t, key);
    var left := if superseded.None? then t
                else t[superseded.value := t[superseded.value].(state := Abandoned, abandonedAt := Some(now))];
    var e := Entry(key, Highest(left, key) + 1, NotStarted, None, superseded);
    var after := OpenFresh(t, key, now);
    assert after == left + [e];
    HighestIsCount(left, key);
    hide Current, Highest, Follows, LastOf, CountOf, OpenFresh;
    AppendFollows(left, e);
    forall i | 0 <= i < |after|
      ensures LeftIfReplaced(after, i)
    {
      if i < |left| {
        assert after[i] == left[i] && LeftIfReplaced(t, i);
      }
    }
    assert Ladder(after);
    CurrentIsLast(after, key);
  }

  lemma RefreshedIsLadder(t: Table, id: nat, state: RunState)
    requires Ladder(t) && id < |t| && !t[id].state.Abandoned? && !state.Abandoned?
    ensures Ladder(t[id := t[id].(state := state)])
  {
    var e := t[id].(state := state);
    MarkAllFollow(t, id, e);
    hide LastOf, CountOf, Follows;
    var after := t[id := e];
    forall i | 0 <= i < |t|
      ensures LeftIfReplaced(after, i)
    {
      assert LeftIfReplaced(t, i);
    }
  }

  /** Over every run, each day, channel and scope has revisions 1 to n, only n not abandoned, each superseding the one before. */
  lemma {:induction false} RunIsLadder(t: Table, cs: seq<Command>)
    requires Ladder(t)
    ensures Ladder(Run(t, cs))
    decreases |cs|
  {
    if cs != [] {
      match cs[0] {
        case Open(key, now) => OpenIsLadder(t, key, now);
        case Refreshed(id, state) =>
          if id < |t| && !t[id].state.Abandoned? && !state.Abandoned? {
            RefreshedIsLadder(t, id, state);
          }
      }
      RunIsLadder(Step(t, cs[0]), cs[1..]);
    }
  }

  class ReviewTable {
    var entries: Table

    constructor ()
      ensures entries == [] && Ladder(entries)
    {
      entries := [];
    }

    method OpenFreshReview(key: Key, now: int) returns (id: nat)
      modifies this
      ensures entries == OpenFresh(old(entries), key, now) && id == |old(entries)|
    {
      var superseded := Current(entries, key);
      if superseded.Some? {
        entries := entries[superseded.value := entries[superseded.value].(state := Abandoned)];
        entries := entries[superseded.value := entries[superseded.value].(abandonedAt := Some(now))];
        assert entries == old(entries)[superseded.value
                              := old(entries)[superseded.value].(state := Abandoned, abandonedAt := Some(now))];
      }
      id := |entries|;
      entries := entries + [Entry(key, Highest(entries, key) + 1, NotStarted, None, superseded)];
    }
  }
}
