/** Deciding rows of a review, one at a time or many at once, and what a row's history says of it. */
module ReviewDecisions {
  import opened Common
  import opened Text
  import opened Actions

  datatype RowState = IsPending | IsApproved | IsExecuted | IsFailed | IsDismissed | IsDeferred

  datatype Decision = Approve | Override | Dismiss | Defer

  datatype Recommendation = Act(kind: Kind) | NeedsReview | NoAction

  /** A request's parameters; only where to file the thread is read here. */
  datatype Filing = Filing(destination: Option<string>)

  datatype Policy = Policy(
    awaitsDecision: bool, executesApproved: bool, permitted: set<Kind>, requiresAlignment: bool,
    destinations: seq<string>, allowsBulk: bool, recordsDecisions: bool)

  datatype Item = Item(
    id: string, recommendation: Recommendation, filing: Option<Filing>, hasObjectives: bool,
    state: RowState, approvedAction: Option<Kind>, approvedFiling: Option<Filing>, decidedAt: Option<int>)

  datatype Record = Record(
    item: string, decision: Decision, action: Option<Kind>, filing: Option<Filing>, followed: bool,
    actor: string, batch: Option<string>)

  const HUMAN_ACTOR := "human"

  datatype Verdict = Refused | Settles | Takes(kind: Kind)

  // ---------------------------------------------------------------- one decision

  predicate RestoresTrash(i: Item, d: Decision, action: Option<Kind>) {
    d.Override? && action == Some(Untrash) && i.state.IsExecuted? && i.approvedAction == Some(Trash)
  }

  function ResolveAction(p: Policy, i: Item, d: Decision, action: Option<Kind>): Verdict {
    if d.Dismiss? || d.Defer? then Settles
    else
      var chosen := if d.Override? then action else if i.recommendation.Act? then Some(i.recommendation.kind) else None;
      if chosen.None? || chosen.value !in p.permitted then Refused else Takes(chosen.value)
  }

  predicate Files(p: Policy, filing: Filing) {
    filing.destination.Some? && Strip(filing.destination.value) != "" && Strip(filing.destination.value) in p.destinations
  }

  /** `None` for the filing asks only whether the decision is available at all. */
  function CheckDecision(p: Policy, i: Item, d: Decision, action: Option<Kind>, filing: Option<Filing>): Verdict {
    if !p.awaitsDecision then Refused
    else if (i.state.IsDismissed? || i.state.IsExecuted?) && !RestoresTrash(i, d, action) then Refused
    else
      var chosen := ResolveAction(p, i, d, action);
      if !chosen.Takes? then chosen
      else if !p.executesApproved then Refused
      else if p.requiresAlignment && !i.hasObjectives then Refused
      else if chosen.kind == Move && (if filing.None? then p.destinations == [] else !Files(p, filing.value)) then Refused
      else chosen
  }

  /** What an approval inherits when the caller names nothing. */
  function RecommendedFiling(i: Item, d: Decision): Filing {
    if d != Approve || i.filing.None? then Filing(None) else i.filing.value
  }

  function Asked(i: Item, d: Decision, filing: Option<Filing>): Filing {
    if filing.Some? then filing.value else RecommendedFiling(i, d)
  }

  /** What is said of a decision, with what the caller asked for or the approval inherits. */
  function VerdictOn(p: Policy, i: Item, d: Decision, action: Option<Kind>, filing: Option<Filing>): Verdict {
    CheckDecision(p, i, d, action, Some(Asked(i, d, filing)))
  }

  function Followed(i: Item, d: Decision, chosen: Option<Kind>): bool {
    if chosen.Some? then i.recommendation == Act(chosen.value) else d == Dismiss && i.recommendation == NoAction
  }

  /** The row as a decision that is not refused leaves it. */
  function Decided(v: Verdict, i: Item, d: Decision, filing: Option<Filing>, now: int): Item
    requires !v.Refused?
  {
    var settled := if v.Takes? then i.(state := IsApproved, approvedAction := Some(v.kind), approvedFiling := Some(Asked(i, d, filing)))
                   else if d.Defer? then i.(state := IsDeferred, approvedAction := None, approvedFiling := None)
                   else i.(state := IsDismissed, approvedAction := None, approvedFiling := None);
    settled.(decidedAt := Some(now))
  }

  function Noted(p: Policy, v: Verdict, i: Item, d: Decision, filing: Option<Filing>, actor: string, batch: Option<string>): Record
    requires !v.Refused?
  {
    var chosen := if v.Takes? then Some(v.kind) else None;
    Record(i.id, d, chosen, if p.recordsDecisions then Some(Asked(i, d, filing)) else None,
           Followed(i, d, chosen), actor, batch)
  }

  // ---------------------------------------------------------------- what a decision can do

  /**
   An action is authorised exactly when the caller approved a recommendation of it or named it in
   an override, and configuration grants it, carries it out, has its objective and files there.
   */
  lemma ActionExactlyWhen(p: Policy, i: Item, d: Decision, action: Option<Kind>, filing: Filing, k: Kind)
    ensures CheckDecision(p, i, d, action, Some(filing)) == Takes(k) <==>
              && ((d == Approve && i.recommendation == Act(k)) || (d == Override && action == Some(k)))
              && p.awaitsDecision && p.executesApproved && k in p.permitted
              && (i.state.IsDismissed? || i.state.IsExecuted? ==>
                    d == Override && k == Untrash && i.state.IsExecuted? && i.approvedAction == Some(Trash))
              && (p.requiresAlignment ==> i.hasObjectives)
              && (k == Move ==> Files(p, filing))
  {
  }

  /** Agreeing takes exactly what was shown, folder and all. */
  lemma ApprovingTakesWhatWasShown(p: Policy, i: Item, action: Option<Kind>, now: int)
    requires var v := VerdictOn(p, i, Approve, action, None); !v.Refused?
    ensures var v := VerdictOn(p, i, Approve, action, None);
            var after := Decided(v, i, Approve, None, now);
            && after.state.IsApproved? && Act(after.approvedAction.value) == i.recommendation
            && (i.filing.Some? ==> after.approvedFiling == i.filing)
            && Noted(p, v, i, Approve, None, HUMAN_ACTOR, None).followed
  {
  }

  /** A deferred or failed row may be decided again, and the last decision is what it then carries. */
  lemma LastDecisionStands(p: Policy, i: Item, d: Decision, e: Decision, action: Option<Kind>, filing: Filing, now: int, later: int)
    requires d != Dismiss
    requires var v := CheckDecision(p, i, d, action, Some(filing)); !v.Refused?
    requires e == Dismiss || e == Defer
    ensures var v := CheckDecision(p, i, d, action, Some(filing));
            var w := CheckDecision(p, Decided(v, i, d, Some(filing), now), e, None, Some(filing));
            && w.Settles?
            && (i.state.IsPending? ==>
                  CheckDecision(p, i, e, None, Some(filing)).Settles?
                  && Decided(w, Decided(v, i, d, Some(filing), now), e, Some(filing), later)
                     == Decided(Settles, i, e, Some(filing), later))
  {
  }

  // ---------------------------------------------------------------- a row's whole life

  /** What happens to a row: decisions of people, scopes and rules, and actions settling it. */
  datatype Command =
    | Decide(policy: Policy, decision: Decision, action: Option<Kind>, filing: Option<Filing>, actor: string, now: int)
    | Withdraw(actor: string, now: int)
    | AuthoriseByRule(rule: string, kind: Kind, params: Filing, now: int)
    | Settle(executed: bool)

  datatype Life = Life(item: Item, records: seq<Record>)

  function Step(l: Life, c: Command): Life {
    match c
    case Decide(p, d, action, filing, actor, now) =>
      var v := VerdictOn(p, l.item, d, action, filing);
      if v.Refused? then l
      else Life(Decided(v, l.item, d, filing, now), l.records + [Noted(p, v, l.item, d, filing, actor, None)])
    case Withdraw(actor, now) =>
      if !l.item.state.IsPending? then l
      else Life(l.item.(state := IsDeferred, decidedAt := Some(now)),
                l.records + [Record(l.item.id, Defer, None, None, false, actor, None)])
    case AuthoriseByRule(rule, kind, filing, now) =>
      if !l.item.state.IsPending? || l.item.recommendation != Act(kind) then l
      else Life(l.item.(state := IsApproved, approvedAction := Some(kind), approvedFiling := Some(filing), decidedAt := Some(now)),
                l.records + [Record(l.item.id, Approve, Some(kind), Some(filing), true, rule, None)])
    case Settle(executed) =>
      if forall r :: r in l.records ==> r.action.None? then l
      else l.(item := l.item.(state := if executed then IsExecuted else IsFailed))
  }

  function Run(l: Life, cs: seq<Command>): Life
    decreases |cs|
  {
    if cs == [] then l else Run(Step(l, cs[0]), cs[1..])
  }

  /** A row is undecided exactly while nothing is recorded of it; after that its last record explains it. */
  predicate Explained(l: Life) {
    && (l.item.state.IsPending? <==> l.records == [])
    && (l.item.decidedAt.None? <==> l.records == [])
    && (l.records == [] ==> l.item.approvedAction.None?)
    && (l.records != [] ==>
          var last := l.records[|l.records| - 1];
          && l.item.approvedAction == last.action
          && (last.decision.Dismiss? || last.decision.Defer? <==> last.action.None?)
          && (l.item.state.IsApproved? ==> last.action.Some?)
          && (l.item.state.IsDismissed? ==> last.decision.Dismiss?)
          && (l.item.state.IsDeferred? ==> last.decision.Defer?)
          && (l.item.state.IsExecuted? || l.item.state.IsFailed? ==> exists r :: r in l.records && r.action.Some?))
  }

  lemma StepIsExplained(l: Life, c: Command)
    requires Explained(l)
    ensures Explained(Step(l, c)) && l.records <= Step(l, c).records
  {
  }

  /** Over every run, no row is approved, put off or dismissed without a record saying so. */
  lemma {:induction false} RunIsExplained(l: Life, cs: seq<Command>)
    requires Explained(l)
    ensures Explained(Run(l, cs)) && l.records <= Run(l, cs).records
    decreases |cs|
  {
    if cs != [] {
      StepIsExplained(l, cs[0]);
      RunIsExplained(Step(l, cs[0]), cs[1..]);
    }
  }

  /** No decision reopens a dismissed row: it leaves that state only if an action it still had settles. */
  lemma {:induction false} DismissedStays(l: Life, cs: seq<Command>)
    requires l.item.state.IsDismissed? && forall c :: c in cs ==> !c.Settle?
    ensures Run(l, cs) == l
    decreases |cs|
  {
    if cs != [] {
      assert cs[0] in cs;
      DismissedStays(Step(l, cs[0]), cs[1..]);
    }
  }

  // ---------------------------------------------------------------- what a decision writes

  /** Putting a row off or dismissing it is allowed exactly while decisions are taken and the row is neither dismissed nor done. */
  lemma SettlesExactlyWhen(p: Policy, i: Item, d: Decision, action: Option<Kind>, filing: Option<Filing>)
    requires d.Dismiss? || d.Defer?
    ensures CheckDecision(p, i, d, action, filing).Settles? <==>
              p.awaitsDecision && i.state in {IsPending, IsApproved, IsFailed, IsDeferred}
    ensures !CheckDecision(p, i, d, action, filing).Takes?
  {
  }

  /** Without a folder named, a decision is on offer as long as there is some folder it could name. */
  lemma OfferedExactlyWhen(p: Policy, i: Item, d: Decision, action: Option<Kind>, k: Kind)
    ensures CheckDecision(p, i, d, action, None) == Takes(k) <==>
              && ((d == Approve && i.recommendation == Act(k)) || (d == Override && action == Some(k)))
              && p.awaitsDecision && p.executesApproved && k in p.permitted
              && (i.state.IsDismissed? || i.state.IsExecuted? ==>
                    d == Override && k == Untrash && i.state.IsExecuted? && i.approvedAction == Some(Trash))
              && (p.requiresAlignment ==> i.hasObjectives)
              && (k == Move ==> p.destinations != [])
  {
  }

  /** A folder is one to file in when it is named and, trimmed, among those of the group. */
  lemma FilesExactlyWhen(p: Policy, filing: Filing)
    ensures Files(p, filing) <==>
              exists folder :: folder in p.destinations && folder != "" && filing.destination.Some?
                               && Strip(filing.destination.value) == folder
  {
  }

  /**
   What an allowed decision leaves of its row: an action taken with the filing asked for, or shown
   and approved, and otherwise no action, put off or dismissed as it was said.
   */
  lemma DecisionLeaves(p: Policy, i: Item, d: Decision, action: Option<Kind>, filing: Option<Filing>, now: int)
    requires !VerdictOn(p, i, d, action, filing).Refused?
    ensures var after := Decided(VerdictOn(p, i, d, action, filing), i, d, filing, now);
            && after.id == i.id && after.recommendation == i.recommendation && after.decidedAt == Some(now)
            && (d.Approve? || d.Override? <==> after.state.IsApproved?)
            && (d.Dismiss? <==> after.state.IsDismissed?) && (d.Defer? <==> after.state.IsDeferred?)
            && (d.Approve? ==> Act(after.approvedAction.value) == i.recommendation)
            && (d.Override? ==> after.approvedAction == action && action.Some?)
            && (d.Dismiss? || d.Defer? ==> after.approvedAction.None? && after.approvedFiling.None?)
            && (d.Approve? || d.Override? ==>
                  after.approvedFiling == if filing.Some? then filing
                                          else if d.Approve? && i.filing.Some? then i.filing else Some(Filing(None)))
  {
  }

  /** The record says what was decided, by whom, and whether it was what was recommended. */
  lemma DecisionIsNoted(p: Policy, i: Item, d: Decision, action: Option<Kind>, filing: Option<Filing>, actor: string,
                        batch: Option<string>, now: int)
    requires !VerdictOn(p, i, d, action, filing).Refused?
    ensures var v := VerdictOn(p, i, d, action, filing);
            var after, record := Decided(v, i, d, filing, now), Noted(p, v, i, d, filing, actor, batch);
            && record.item == i.id && record.decision == d && record.actor == actor && record.batch == batch
            && record.action == after.approvedAction
            && (record.action.Some? && p.recordsDecisions ==> record.filing == after.approvedFiling)
            && (!p.recordsDecisions ==> record.filing.None?)
            && (record.followed <==>
                  (record.action.Some? && i.recommendation == Act(record.action.value))
                  || (d.Dismiss? && i.recommendation == NoAction))
  {
  }
}

/** The rows themselves, and the bulk decision that changes all of them or none. */
module ReviewDecisionRows {
  import opened Common
  import opened Actions
  import opened ReviewDecisions

  class ReviewItem {
    const id: string
    const recommendation: Recommendation
    const filing: Option<Filing>
    const hasObjectives: bool
    var state: RowState
    var approvedAction: Option<Kind>
    var approvedFiling: Option<Filing>
    var decidedAt: Option<int>

    constructor (id: string, recommendation: Recommendation, filing: Option<Filing>, hasObjectives: bool)
      ensures Value() == Item(id, recommendation, filing, hasObjectives, IsPending, None, None, None)
      ensures Explained(Life(Value(), []))
    {
      this.id, this.recommendation, this.filing, this.hasObjectives := id, recommendation, filing, hasObjectives;
      state, approvedAction, approvedFiling, decidedAt := IsPending, None, None, None;
    }

    function Value(): Item
      reads this
    {
      Item(id, recommendation, filing, hasObjectives, state, approvedAction, approvedFiling, decidedAt)
    }
  }

  class ReviewRun {
    var records: seq<Record>
    var begunBy: Option<string>

    constructor ()
      ensures records == [] && begunBy.None?
    {
      records, begunBy := [], None;
    }
  }

  /** Working a row is agreeing to the plan, when a person does it. */
  function Begun(begunBy: Option<string>, actor: string): Option<string> {
    if actor == HUMAN_ACTOR && begunBy.None? then Some(actor) else begunBy
  }

  method Apply(item: ReviewItem, v: Verdict, d: Decision, filing: Option<Filing>, now: int)
    requires !v.Refused?
    modifies item
    ensures item.Value() == Decided(v, old(item.Value()), d, filing, now)
  {
    var asked := Asked(item.Value(), d, filing);
    hide Asked;
    if v.Takes? {
      item.state := IsApproved;
      item.approvedAction := Some(v.kind);
      item.approvedFiling := Some(asked);
    } else if d == Defer {
      item.state := IsDeferred;
      item.approvedAction := None;
      item.approvedFiling := None;
    } else {
      item.state := IsDismissed;
      item.approvedAction := None;
      item.approvedFiling := None;
    }
    item.decidedAt := Some(now);
  }

  method RecordDecision(p: Policy, run: ReviewRun, item: ReviewItem, d: Decision, action: Option<Kind>,
                        filing: Option<Filing>, actor: string, batch: Option<string>, now: int)
      returns (refused: bool)
    modifies run, item
    ensures var v := VerdictOn(p, old(item.Value()), d, action, filing);
            && refused == v.Refused?
            && (refused ==> item.Value() == old(item.Value()) && run.records == old(run.records) && run.begunBy == old(run.begunBy))
            && (!refused ==>
                  && item.Value() == Decided(v, old(item.Value()), d, filing, now)
                  && run.records == old(run.records) + [Noted(p, v, old(item.Value()), d, filing, actor, batch)]
                  && run.begunBy == Begun(old(run.begunBy), actor))
  {
    hide CheckDecision, Asked, RecommendedFiling, Decided, Followed;
    var was := item.Value();
    var chosen := VerdictOn(p, was, d, action, filing);
    if chosen.Refused? {
      return true;
    }
    Apply(item, chosen, d, filing, now);
    var taken := if chosen.Takes? then Some(chosen.kind) else None;
    var asked := Asked(was, d, filing);
    var record := Record(item.id, d, taken, if p.recordsDecisions then Some(asked) else None,
                         Followed(was, d, taken), actor, batch);
    run.records := run.records + [record];
    if actor == HUMAN_ACTOR && run.begunBy.None? {
      run.begunBy := Some(actor);
    }
    return false;
  }

  // ---------------------------------------------------------------- many at once

  datatype Answer =
    | BulkForbidden
    | NotFound
    | Ineligible(ids: seq<string>)
    | Recorded(items: seq<ReviewItem>)

  /** The named rows, or when none are named, the undecided ones. */
  predicate Chosen(i: Item, ids: Option<seq<string>>) {
    if ids.None? then i.state.IsPending? else i.id in ids.value
  }

  /** Undecided rows are those nothing is recorded of; what was put off is decided, and must be named. */
  lemma ChosenExactlyWhen(l: Life, ids: Option<seq<string>>)
    requires Explained(l)
    ensures Chosen(l.item, ids) <==> (ids.Some? && l.item.id in ids.value) || (ids.None? && l.records == [])
  {
  }

  ghost predicate DistinctRows(items: seq<ReviewItem>) {
    forall i, j :: 0 <= i < j < |items| ==> items[i] != items[j] && items[i].id != items[j].id
  }

  /** The rows of a group that were picked, in the group's order. */
  ghost function Picked(items: seq<ReviewItem>, ids: Option<seq<string>>): (r: seq<ReviewItem>)
    reads items
    ensures forall x :: x in r ==> x in items
    ensures forall x :: x in items ==> (x in r <==> Chosen(x.Value(), ids))
  {
    if items == [] then []
    else
      var front, last := items[..|items| - 1], items[|items| - 1];
      assert items == front + [last];
      Picked(front, ids) + if Chosen(last.Value(), ids) then [last] else []
  }

  lemma {:induction false} PickedAreDistinct(items: seq<ReviewItem>, ids: Option<seq<string>>)
    requires DistinctRows(items)
    ensures forall i, j :: 0 <= i < j < |Picked(items, ids)| ==> Picked(items, ids)[i] != Picked(items, ids)[j]
  {
    if items != [] {
      var front, last := items[..|items| - 1], items[|items| - 1];
      assert DistinctRows(front) && last !in front;
      PickedAreDistinct(front, ids);
    }
  }

  method Select(items: seq<ReviewItem>, ids: Option<seq<string>>) returns (selected: seq<ReviewItem>)
    requires DistinctRows(items)
    ensures selected == Picked(items, ids)
    ensures forall x :: x in items ==> (x in selected <==> Chosen(x.Value(), ids))
    ensures forall i, j :: 0 <= i < j < |selected| ==> selected[i] != selected[j]
  {
    selected := [];
    for n := 0 to |items|
      invariant selected == Picked(items[..n], ids)
    {
      assert items[..n + 1][..n] == items[..n];
      if Chosen(items[n].Value(), ids) {
        selected := selected + [items[n]];
      }
    }
    assert items[..|items|] == items;
    PickedAreDistinct(items, ids);
  }

  /** What the first loop finds: the refused rows, and no others. */
  method FindIneligible(p: Policy, selected: seq<ReviewItem>, d: Decision, action: Option<Kind>, filing: Option<Filing>)
      returns (ineligible: seq<string>)
    ensures ineligible == [] <==>
              forall x :: x in selected ==> !VerdictOn(p, x.Value(), d, action, filing).Refused?
    ensures forall id :: id in ineligible <==>
              exists x :: x in selected && x.id == id
                          && VerdictOn(p, x.Value(), d, action, filing).Refused?
  {
    ineligible := [];
    for n := 0 to |selected|
      invariant ineligible == [] <==>
                  forall k :: 0 <= k < n ==>
                    !VerdictOn(p, selected[k].Value(), d, action, filing).Refused?
      invariant forall id :: id in ineligible <==>
                  exists k :: 0 <= k < n && selected[k].id == id
                              && VerdictOn(p, selected[k].Value(), d, action, filing).Refused?
    {
      hide VerdictOn;
      var x := selected[n];
      if VerdictOn(p, x.Value(), d, action, filing).Refused? {
        ineligible := ineligible + [x.id];
      }
    }
    hide VerdictOn;
  }

  /** The second loop. Deciding one row leaves what is said of every other, so none is refused. */
  method RecordAll(p: Policy, run: ReviewRun, selected: seq<ReviewItem>, d: Decision, action: Option<Kind>,
                   filing: Option<Filing>, batch: Option<string>, now: int)
    requires forall i, j :: 0 <= i < j < |selected| ==> selected[i] != selected[j]
    requires forall x :: x in selected ==> !VerdictOn(p, x.Value(), d, action, filing).Refused?
    modifies run, selected
    ensures forall x :: x in selected ==>
              x.Value() == Decided(VerdictOn(p, old(x.Value()), d, action, filing), old(x.Value()), d, filing, now)
    ensures |run.records| == |old(run.records)| + |selected| && old(run.records) <= run.records
    ensures forall k :: 0 <= k < |selected| ==>
              run.records[|old(run.records)| + k]
              == Noted(p, VerdictOn(p, old(selected[k].Value()), d, action, filing), old(selected[k].Value()), d, filing, HUMAN_ACTOR, batch)
    ensures selected != [] ==> run.begunBy == Begun(old(run.begunBy), HUMAN_ACTOR)
  {
    hide VerdictOn, Decided, Noted;
    for n := 0 to |selected|
      invariant forall k :: n <= k < |selected| ==> selected[k].Value() == old(selected[k].Value())
      invariant forall k :: 0 <= k < n ==>
                  selected[k].Value()
                  == Decided(VerdictOn(p, old(selected[k].Value()), d, action, filing), old(selected[k].Value()), d, filing, now)
      invariant |run.records| == |old(run.records)| + n && old(run.records) <= run.records
      invariant forall k :: 0 <= k < n ==>
                  run.records[|old(run.records)| + k]
                  == Noted(p, VerdictOn(p, old(selected[k].Value()), d, action, filing), old(selected[k].Value()), d, filing, HUMAN_ACTOR, batch)
      invariant run.begunBy == if n == 0 then old(run.begunBy) else Begun(old(run.begunBy), HUMAN_ACTOR)
    {
      assert selected[n] in selected;
      var refused := RecordDecision(p, run, selected[n], d, action, filing, HUMAN_ACTOR, batch, now);
      assert !refused;
    }
  }

  /**
   Either every picked row ends in the state its decision implies, noted in the group's order, or
   nothing changes: once the first loop passes every row, the second cannot be refused.
   */
  method DecideGroup(p: Policy, run: ReviewRun, items: seq<ReviewItem>, d: Decision, ids: Option<seq<string>>,
                     action: Option<Kind>, filing: Option<Filing>, batch: Option<string>, now: int)
      returns (answer: Answer)
    requires DistinctRows(items)
    modifies run, items
    ensures answer.BulkForbidden? <==> !p.allowsBulk
    ensures answer.NotFound? <==> p.allowsBulk && ids.Some? && exists id :: id in ids.value && forall x :: x in items ==> x.id != id
    ensures answer.Ineligible? ==>
              && answer.ids != []
              && forall id :: id in answer.ids <==>
                   exists x :: x in items && x.id == id && Chosen(old(x.Value()), ids)
                               && VerdictOn(p, old(x.Value()), d, action, filing).Refused?
    ensures !answer.Recorded? ==>
              && run.records == old(run.records) && run.begunBy == old(run.begunBy)
              && forall x :: x in items ==> x.Value() == old(x.Value())
    ensures answer.Recorded? ==>
              && answer.items == old(Picked(items, ids))
              && (forall x :: x in items ==> (x in answer.items <==> Chosen(old(x.Value()), ids)))
              && (forall x :: x in items ==>
                    if x in answer.items then
                      var v := VerdictOn(p, old(x.Value()), d, action, filing);
                      !v.Refused? && x.Value() == Decided(v, old(x.Value()), d, filing, now)
                    else x.Value() == old(x.Value()))
              && |run.records| == |old(run.records)| + |answer.items| && old(run.records) <= run.records
              && (forall k :: 0 <= k < |answer.items| ==>
                    var x := answer.items[k];
                    x in items
                    && run.records[|old(run.records)| + k]
                       == Noted(p, VerdictOn(p, old(x.Value()), d, action, filing), old(x.Value()), d, filing, HUMAN_ACTOR, batch))
              && (answer.items != [] ==> run.begunBy == Begun(old(run.begunBy), HUMAN_ACTOR))
  {
    hide VerdictOn, Decided, Noted, Chosen, Begun;
    if !p.allowsBulk {
      return BulkForbidden;
    }
    if ids.Some? && exists id :: id in ids.value && forall x :: x in items ==> x.id != id {
      return NotFound;
    }
    var selected := Select(items, ids);
    var ineligible := FindIneligible(p, selected, d, action, filing);
    if ineligible != [] {
      assert forall x :: x in selected <==> x in items && Chosen(x.Value(), ids);
      return Ineligible(ineligible);
    }
    forall k | 0 <= k < |selected|
      ensures selected[k] in items
    {
      assert selected[k] in selected;
    }
    RecordAll(p, run, selected, d, action, filing, batch, now);
    return Recorded(selected);
  }
}
