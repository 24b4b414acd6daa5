/** What a review owes the mailbox, and the order its groups are agreed to be worked in. */
module Standing {
  import opened Common
  import opened Actions
  import opened ReviewDecisions

  datatype Row = Row(id: string, state: RowState)

  datatype Attempt = Attempt(item: string, state: State)

  datatype Owed = Owed(decidedNotExecuted: nat, preparedAwaiting: nat, failedOrUnverified: nat)
  {
    function Outstanding(): nat {
      decidedNotExecuted + preparedAwaiting + failedOrUnverified
    }
  }

  predicate Unexecuted(r: Row) {
    r.state.IsApproved? || r.state.IsFailed?
  }

  predicate Attempted(a: Attempt) {
    a.state.Prepared? || a.state.Executed? || a.state.Verified? || a.state.Failed?
  }

  function AttemptedIds(actions: seq<Attempt>): seq<string> {
    if actions == [] then []
    else (if Attempted(actions[0]) then [actions[0].item] else []) + AttemptedIds(actions[1..])
  }

  function UnexecutedIds(rows: seq<Row>): seq<string> {
    if rows == [] then []
    else (if Unexecuted(rows[0]) then [rows[0].id] else []) + UnexecutedIds(rows[1..])
  }

  lemma {:induction false} UnexecutedAreRows(rows: seq<Row>, id: string)
    ensures id in UnexecutedIds(rows) <==> exists r :: r in rows && Unexecuted(r) && r.id == id
  {
    if rows != [] {
      UnexecutedAreRows(rows[1..], id);
      assert rows == [rows[0]] + rows[1..];
    }
  }

  lemma {:induction false} AttemptedAreActions(actions: seq<Attempt>, id: string)
    ensures id in AttemptedIds(actions) <==> exists a :: a in actions && Attempted(a) && a.item == id
  {
    if actions != [] {
      AttemptedAreActions(actions[1..], id);
      assert actions == [actions[0]] + actions[1..];
    }
  }

  function CountRows(rows: seq<Row>, carried: set<string>): nat {
    if rows == [] then 0
    else (if Unexecuted(rows[0]) && rows[0].id !in carried then 1 else 0) + CountRows(rows[1..], carried)
  }

  function CountPrepared(actions: seq<Attempt>): nat {
    if actions == [] then 0 else (if actions[0].state.Prepared? then 1 else 0) + CountPrepared(actions[1..])
  }

  function CountUnsettled(actions: seq<Attempt>): nat {
    if actions == [] then 0
    else
      (if actions[0].state.Failed? || actions[0].state.Executed? || actions[0].state.Verified? then 1 else 0)
      + CountUnsettled(actions[1..])
  }

  function CountStanding(rows: seq<Row>, actions: seq<Attempt>): Owed {
    Owed(CountRows(rows, Elements(AttemptedIds(actions))), CountPrepared(actions), CountUnsettled(actions))
  }

  ghost predicate DistinctIds(rows: seq<Row>) {
    forall i, j :: 0 <= i < j < |rows| ==> rows[i].id != rows[j].id
  }

  lemma {:induction false} AttemptsAreCounted(actions: seq<Attempt>)
    ensures CountPrepared(actions) + CountUnsettled(actions) == |AttemptedIds(actions)|
  {
    if actions != [] {
      AttemptsAreCounted(actions[1..]);
    }
  }

  lemma HeadIsNotLater(rows: seq<Row>)
    requires DistinctIds(rows) && rows != []
    ensures rows[0].id !in UnexecutedIds(rows[1..]) && DistinctIds(rows[1..])
  {
    UnexecutedAreRows(rows[1..], rows[0].id);
    assert forall r :: r in rows[1..] ==> r.id != rows[0].id;
  }

  lemma {:induction false} UnexecutedOnce(rows: seq<Row>)
    requires DistinctIds(rows)
    ensures Distinct(UnexecutedIds(rows))
  {
    if rows != [] {
      HeadIsNotLater(rows);
      UnexecutedOnce(rows[1..]);
    }
  }

  lemma OneMore(later: set<string>, carried: set<string>, id: string)
    requires id !in later
    ensures |later + {id} - carried| == |later - carried| + if id in carried then 0 else 1
  {
    if id in carried {
      assert later + {id} - carried == later - carried;
    } else {
      assert later + {id} - carried == (later - carried) + {id};
    }
  }

  /** Rows no action has carried are the unexecuted ones less those one has. */
  lemma {:induction false} RowsAreCounted(rows: seq<Row>, carried: set<string>)
    requires DistinctIds(rows)
    ensures CountRows(rows, carried) == |Elements(UnexecutedIds(rows)) - carried|
  {
    if rows != [] {
      HeadIsNotLater(rows);
      RowsAreCounted(rows[1..], carried);
      var id, later := rows[0].id, UnexecutedIds(rows[1..]);
      assert UnexecutedIds(rows) == if Unexecuted(rows[0]) then [id] + later else later;
      assert CountRows(rows, carried)
          == (if Unexecuted(rows[0]) && id !in carried then 1 else 0) + CountRows(rows[1..], carried);
      hide *;
      ElementsOf(id, later);
      OneMore(Elements(later), carried, id);
    }
  }

  lemma ElementsOf(id: string, later: seq<string>)
    ensures Elements([id] + later) == Elements(later) + {id}
    ensures id !in later ==> id !in Elements(later)
  {
  }

  lemma Shortfall(owed: set<string>, carried: set<string>, attempts: nat)
    requires |carried| <= attempts
    ensures |owed - carried| + attempts >= |owed|
    ensures |owed - carried| + attempts == |owed| <==> |carried| == attempts && carried <= owed
  {
    assert owed == (owed - carried) + (owed * carried);
    SubsetCardinality(owed * carried, carried);
    assert owed * carried == carried <==> carried <= owed;
  }

  /**
   What is outstanding is never less than the rows decided and not done, and is exactly that
   many just when no row has two attempted actions and no action was attempted for any other row.
   */
  lemma NeverUnderReports(rows: seq<Row>, actions: seq<Attempt>)
    requires DistinctIds(rows)
    ensures CountStanding(rows, actions).Outstanding() >= |UnexecutedIds(rows)|
    ensures CountStanding(rows, actions).Outstanding() == |UnexecutedIds(rows)| <==>
              && Distinct(AttemptedIds(actions))
              && forall id :: id in AttemptedIds(actions) ==> id in UnexecutedIds(rows)
  {
    var owed, ids := UnexecutedIds(rows), AttemptedIds(actions);
    RowsAreCounted(rows, Elements(ids));
    AttemptsAreCounted(actions);
    UnexecutedOnce(rows);
    hide CountRows, CountPrepared, CountUnsettled, UnexecutedIds, AttemptedIds, Distinct;
    DistinctCardinality(owed);
    DistinctCardinality(ids);
    Shortfall(Elements(owed), Elements(ids), |ids|);
    ElementsSubset(ids, owed);
  }

  /** The three counts can overlap: one row with two prepared actions is counted twice. */
  lemma TwoActionsCountTwice()
    ensures exists rows, actions ::
              && DistinctIds(rows) && |UnexecutedIds(rows)| == 1
              && CountStanding(rows, actions).Outstanding() == 2
  {
    var rows, actions := [Row.Row("row", IsApproved)], [Attempt("row", State.Prepared), Attempt("row", State.Prepared)];
    assert rows[1..] == [] && actions[1..] == [actions[1]] && actions[1..][1..] == [];
    NeverUnderReports(rows, actions);
    AttemptsAreCounted(actions);
    assert AttemptedIds(actions) == ["row", "row"];
    assert CountRows(rows, Elements(AttemptedIds(actions))) == 0;
  }

  lemma {:induction false} CountsSplit(a: seq<Attempt>, b: seq<Attempt>)
    ensures CountPrepared(a + b) == CountPrepared(a) + CountPrepared(b)
    ensures CountUnsettled(a + b) == CountUnsettled(a) + CountUnsettled(b)
  {
    if a == [] {
      assert a + b == b;
    } else {
      CountsSplit(a[1..], b);
      assert (a + b)[1..] == a[1..] + b;
    }
  }

  lemma AttemptsSplit(a: seq<Attempt>, b: seq<Attempt>, id: string)
    ensures id in AttemptedIds(a + b) <==> id in AttemptedIds(a) || id in AttemptedIds(b)
  {
    AttemptedAreActions(a + b, id);
    AttemptedAreActions(a, id);
    AttemptedAreActions(b, id);
    hide AttemptedIds, Attempted;
  }

  lemma {:induction false} RowsSplit(a: seq<Row>, b: seq<Row>, carried: set<string>, own: set<string>, others: set<string>)
    requires forall r :: r in a ==> (r.id in carried <==> r.id in own)
    requires forall r :: r in b ==> (r.id in carried <==> r.id in others)
    ensures CountRows(a + b, carried) == CountRows(a, own) + CountRows(b, others)
    decreases |a| + |b|
  {
    if a != [] {
      assert forall r :: r in a[1..] ==> r in a;
      RowsSplit(a[1..], b, carried, own, others);
      assert (a + b)[1..] == a[1..] + b;
    } else {
      assert a + b == b;
      if b != [] {
        assert forall r :: r in b[1..] ==> r in b;
        RowsSplit(a, b[1..], carried, own, others);
        assert a + b[1..] == b[1..];
      }
    }
  }

  /** A review owes what its groups owe, as long as no action is for another group's row. */
  lemma StandingsAddUp(a: seq<Row>, b: seq<Row>, forA: seq<Attempt>, forB: seq<Attempt>)
    requires forall x :: x in forA && Attempted(x) ==> forall r :: r in b ==> r.id != x.item
    requires forall x :: x in forB && Attempted(x) ==> forall r :: r in a ==> r.id != x.item
    ensures var all, one, two := CountStanding(a + b, forA + forB), CountStanding(a, forA), CountStanding(b, forB);
            && all.decidedNotExecuted == one.decidedNotExecuted + two.decidedNotExecuted
            && all.preparedAwaiting == one.preparedAwaiting + two.preparedAwaiting
            && all.failedOrUnverified == one.failedOrUnverified + two.failedOrUnverified
            && all.Outstanding() == one.Outstanding() + two.Outstanding()
  {
    CountsSplit(forA, forB);
    forall r | r in a
      ensures r.id in AttemptedIds(forA + forB) <==> r.id in AttemptedIds(forA)
    {
      AttemptsSplit(forA, forB, r.id);
      AttemptedAreActions(forB, r.id);
    }
    forall r | r in b
      ensures r.id in AttemptedIds(forA + forB) <==> r.id in AttemptedIds(forB)
    {
      AttemptsSplit(forA, forB, r.id);
      AttemptedAreActions(forA, r.id);
    }
    hide AttemptedIds, CountPrepared, CountUnsettled;
    RowsSplit(a, b, Elements(AttemptedIds(forA + forB)), Elements(AttemptedIds(forA)), Elements(AttemptedIds(forB)));
  }

  // ---------------------------------------------------------------- what each count counts

  /** The places of a list whose entry is of interest. */
  function Where<T>(s: seq<T>, of: T -> bool): set<int> {
    set i | 0 <= i < |s| && of(s[i])
  }

  lemma WhereEnds<T>(front: seq<T>, last: T, of: T -> bool)
    ensures |Where(front + [last], of)| == |Where(front, of)| + if of(last) then 1 else 0
  {
    var s := front + [last];
    forall i
      ensures i in Where(s, of) <==> i in Where(front, of) || (i == |front| && of(last))
    {
    }
    if of(last) {
      assert Where(s, of) == Where(front, of) + {|front|};
    } else {
      assert Where(s, of) == Where(front, of);
    }
  }

  predicate IsPrepared(a: Attempt) {
    a.state == State.Prepared
  }

  /** Tried, and either failed or not known to have worked. */
  predicate IsUnsettled(a: Attempt) {
    a.state in {State.Executed, State.Verified, State.Failed}
  }

  lemma {:induction false} AttemptsCounted(actions: seq<Attempt>)
    ensures CountPrepared(actions) == |Where(actions, IsPrepared)|
    ensures CountUnsettled(actions) == |Where(actions, IsUnsettled)|
  {
    if actions != [] {
      var front, last := actions[..|actions| - 1], actions[|actions| - 1];
      assert actions == front + [last] && |[last][1..]| == 0;
      AttemptsCounted(front);
      CountsSplit(front, [last]);
      WhereEnds(front, last, IsPrepared);
      WhereEnds(front, last, IsUnsettled);
      hide Where;
    }
  }

  function Uncarried(carried: set<string>): Row -> bool {
    (r: Row) => r.state in {IsApproved, IsFailed} && r.id !in carried
  }

  lemma {:induction false} RowsCounted(rows: seq<Row>, carried: set<string>)
    ensures CountRows(rows, carried) == |Where(rows, Uncarried(carried))|
  {
    if rows != [] {
      var front, last := rows[..|rows| - 1], rows[|rows| - 1];
      assert rows == front + [last] && |[last][1..]| == 0;
      RowsCounted(front, carried);
      RowsSplit(front, [last], carried, carried, carried);
      WhereEnds(front, last, Uncarried(carried));
      hide Where;
    }
  }

  /**
   What a standing counts: the rows approved or failed that no action prepared or tried is for,
   the actions prepared and not tried, and those tried that failed or are not settled.
   */
  lemma StandingCounts(rows: seq<Row>, actions: seq<Attempt>)
    ensures var owed := CountStanding(rows, actions);
            && owed.preparedAwaiting == |Where(actions, IsPrepared)|
            && owed.failedOrUnverified == |Where(actions, IsUnsettled)|
            && owed.decidedNotExecuted == |Where(rows, Uncarried(Elements(AttemptedIds(actions))))|
    ensures forall id :: id in Elements(AttemptedIds(actions)) <==>
                           exists a :: a in actions && (IsPrepared(a) || IsUnsettled(a)) && a.item == id
  {
    AttemptsCounted(actions);
    RowsCounted(rows, Elements(AttemptedIds(actions)));
    forall id
      ensures id in AttemptedIds(actions) <==> exists a :: a in actions && (IsPrepared(a) || IsUnsettled(a)) && a.item == id
    {
      AttemptedAreActions(actions, id);
      assert forall a: Attempt :: Attempted(a) <==> IsPrepared(a) || IsUnsettled(a);
      hide Attempted, IsPrepared, IsUnsettled;
    }
    hide Where, AttemptedIds, CountRows, CountPrepared, CountUnsettled;
  }
}

/** Agreeing the plan of one review: which groups, in which order. */
module ReviewPlans {
  import opened Common

  const HUMAN_ACTOR := "human"
  const SYSTEM_ACTOR := "system"

  datatype Plan = Plan(
    active: bool, version: nat, sequence: seq<string>, skipped: set<string>, begunAt: Option<int>, begunBy: Option<string>)

  function Written(enabled: seq<string>, begun: bool, now: int): Plan {
    Plan(begun, 1, enabled, {}, if begun then Some(now) else None, if begun then Some(HUMAN_ACTOR) else None)
  }

  function Without(configured: seq<string>, named: seq<string>): (r: seq<string>)
    ensures forall k :: k in r <==> k in configured && k !in named
  {
    if configured == [] then []
    else
      assert configured == [configured[0]] + configured[1..];
      (if configured[0] in named then [] else [configured[0]]) + Without(configured[1..], named)
  }

  predicate Known(configured: seq<string>, named: seq<string>) {
    forall k :: k in named ==> k in configured
  }

  /** `None` where a group is named that the review does not have. */
  function Arrange(configured: seq<string>, order: seq<string>): Option<seq<string>> {
    if order == [] then Some(configured)
    else if !Known(configured, order) then None
    else Some(Once(order) + Without(configured, order))
  }

  function SetAside(configured: seq<string>, sequence: seq<string>, only: seq<string>, skip: seq<string>): Option<set<string>> {
    if only != [] then if Known(configured, only) then Some(set k | k in sequence && k !in only) else None
    else if skip != [] then if Known(configured, skip) then Some(Elements(skip)) else None
    else Some({})
  }

  datatype Request = Request(order: seq<string>, only: seq<string>, skip: seq<string>)

  /** `None` where the source refuses: an unknown group, or every group set aside. */
  function Begin(plan: Plan, configured: seq<string>, r: Request, actor: string, now: int): Option<Plan> {
    var sequence := Arrange(configured, r.order);
    var omitted := if sequence.None? then None else SetAside(configured, sequence.value, r.only, r.skip);
    if omitted.None? || Elements(sequence.value) - omitted.value == {} then None
    else
      var changed := plan.sequence != sequence.value || plan.skipped != omitted.value;
      var agreed := plan.(sequence := sequence.value, skipped := omitted.value,
                          version := plan.version + if changed then 1 else 0);
      Some(if plan.active then agreed else agreed.(active := true, begunAt := Some(now), begunBy := Some(actor)))
  }

  class ReviewPlan {
    var plan: Plan

    constructor (enabled: seq<string>, begun: bool, now: int)
      ensures plan == Written(enabled, begun, now)
    {
      plan := Written(enabled, begun, now);
    }

    method BeginPlan(configured: seq<string>, r: Request, actor: string, now: int) returns (refused: bool)
      modifies this
      ensures var spec := Begin(old(plan), configured, r, actor, now);
              refused == spec.None? && plan == if refused then old(plan) else spec.value
    {
      var sequence := Arrange(configured, r.order);
      if sequence.None? {
        return true;
      }
      var omitted := SetAside(configured, sequence.value, r.only, r.skip);
      if omitted.None? || Elements(sequence.value) - omitted.value == {} {
        return true;
      }
      hide Arrange, SetAside;
      var changed := plan.sequence != sequence.value || plan.skipped != omitted.value;
      plan := plan.(sequence := sequence.value);
      plan := plan.(skipped := omitted.value);
      if changed {
        plan := plan.(version := plan.version + 1);
      }
      if !plan.active {
        plan := plan.(active := true, begunAt := Some(now), begunBy := Some(actor));
      }
      return false;
    }
  }

  // ---------------------------------------------------------------- what is agreed

  ghost predicate Precedes(s: seq<string>, a: string, b: string) {
    exists x, y :: 0 <= x < y < |s| && s[x] == a && s[y] == b
  }

  lemma {:induction false} WithoutKeepsOrder(configured: seq<string>, named: seq<string>)
    requires Distinct(configured)
    ensures Distinct(Without(configured, named))
    ensures forall a, b :: Precedes(configured, a, b) && a !in named && b !in named ==> Precedes(Without(configured, named), a, b)
  {
    if configured != [] {
      var first, rest := configured[0], configured[1..];
      var later := Without(rest, named);
      WithoutKeepsOrder(rest, named);
      assert first !in rest;
      forall a, b | Precedes(configured, a, b) && a !in named && b !in named
        ensures Precedes(Without(configured, named), a, b)
      {
        var x, y :| 0 <= x < y < |configured| && configured[x] == a && configured[y] == b;
        if x == 0 {
          assert b == rest[y - 1] && b in later;
          FirstPrecedes(first, later, b);
        } else {
          assert rest[x - 1] == a && rest[y - 1] == b && Precedes(rest, a, b);
          LaterPrecedes(first, later, a, b);
        }
      }
    }
  }

  lemma FirstPrecedes(first: string, later: seq<string>, b: string)
    requires b in later
    ensures Precedes([first] + later, first, b)
  {
    var y :| 0 <= y < |later| && later[y] == b;
    assert ([first] + later)[0] == first && ([first] + later)[y + 1] == b;
  }

  lemma LaterPrecedes(first: string, later: seq<string>, a: string, b: string)
    requires Precedes(later, a, b)
    ensures Precedes([first] + later, a, b) && Precedes([] + later, a, b)
  {
    var x, y :| 0 <= x < y < |later| && later[x] == a && later[y] == b;
    assert ([first] + later)[x + 1] == a && ([first] + later)[y + 1] == b;
    assert [] + later == later;
  }

  lemma BothDistinct(named: seq<string>, rest: seq<string>)
    requires Distinct(named) && Distinct(rest) && forall k :: k in rest ==> k !in named
    ensures Distinct(named + rest)
  {
    forall i, j | 0 <= i < j < |named + rest|
      ensures (named + rest)[i] != (named + rest)[j]
    {
      if i < |named| && |named| <= j {
        assert (named + rest)[i] in named && (named + rest)[j] in rest;
      }
    }
  }

  lemma PrecedesLater(front: seq<string>, s: seq<string>, a: string, b: string)
    requires Precedes(s, a, b)
    ensures Precedes(front + s, a, b)
  {
    var x, y :| 0 <= x < y < |s| && s[x] == a && s[y] == b;
    assert (front + s)[|front| + x] == a && (front + s)[|front| + y] == b;
  }

  /** Naming some groups brings them to the front and drops none: the order is of every group, each once. */
  lemma ArrangeIsPermutation(configured: seq<string>, order: seq<string>)
    requires Distinct(configured)
    ensures Arrange(configured, order).None? <==> exists k :: k in order && k !in configured
    ensures var r := Arrange(configured, order);
            r.Some? ==>
              && multiset(r.value) == multiset(configured) && Once(order) <= r.value
              && forall a, b :: Precedes(configured, a, b) && a !in order && b !in order ==> Precedes(r.value, a, b)
  {
    var r := Arrange(configured, order);
    if r.Some? {
      if order == [] {
        assert Once(order) == [];
      } else {
        var named, rest := Once(order), Without(configured, order);
        WithoutKeepsOrder(configured, order);
        hide Without, Once;
        BothDistinct(named, rest);
        hide Distinct;
        DistinctPermutation(named + rest, configured);
        hide Precedes;
        forall a, b | Precedes(configured, a, b) && a !in order && b !in order
          ensures Precedes(named + rest, a, b)
        {
          PrecedesLater(named, rest, a, b);
        }
      }
    }
  }

  /** An agreed plan works at least one group, all its groups are configured, and nothing is asked twice. */
  lemma BegunPlanWorks(plan: Plan, configured: seq<string>, r: Request, actor: string, now: int)
    requires Distinct(configured) && Begin(plan, configured, r, actor, now).Some?
    ensures var after := Begin(plan, configured, r, actor, now).value;
            && after.active && multiset(after.sequence) == multiset(configured)
            && (exists k :: k in after.sequence && k !in after.skipped)
            && (forall k :: k in after.skipped ==> k in configured)
            && (forall k :: k in configured ==> (k in after.skipped <==> if r.only != [] then k !in r.only else k in r.skip))
            && (plan.active ==> after.begunAt == plan.begunAt && after.begunBy == plan.begunBy)
  {
    var after := Begin(plan, configured, r, actor, now).value;
    ArrangeIsPermutation(configured, r.order);
    DistinctPermutation(after.sequence, configured);
    var left := Elements(after.sequence) - after.skipped;
    assert left != {};
    var k :| k in left;
    assert k in after.sequence && k !in after.skipped;
  }

  predicate Worked(r: Request, k: string) {
    if r.only != [] then k in r.only else k !in r.skip
  }

  /** A plan is agreed exactly when it names only what is configured and leaves a group to work. */
  lemma BegunExactlyWhen(plan: Plan, configured: seq<string>, r: Request, actor: string, now: int)
    requires Distinct(configured)
    ensures Begin(plan, configured, r, actor, now).Some? <==>
              && (forall k :: k in r.order ==> k in configured)
              && (forall k :: k in (if r.only != [] then r.only else r.skip) ==> k in configured)
              && exists k :: k in configured && Worked(r, k)
  {
    ArrangeIsPermutation(configured, r.order);
    var sequence := Arrange(configured, r.order);
    if sequence.Some? {
      DistinctPermutation(sequence.value, configured);
      var omitted := SetAside(configured, sequence.value, r.only, r.skip);
      hide Arrange;
      if omitted.Some? {
        var left := Elements(sequence.value) - omitted.value;
        assert forall k :: k in left <==> k in configured && Worked(r, k);
        if left != {} {
          var k :| k in left;
          assert k in configured && Worked(r, k);
        }
      }
    }
  }

  /** Agreeing to the same plan again changes nothing, whoever asks and whenever. */
  lemma BeginAgainChangesNothing(plan: Plan, configured: seq<string>, r: Request, actor: string, now: int, who: string, later: int)
    requires Begin(plan, configured, r, actor, now).Some?
    ensures var after := Begin(plan, configured, r, actor, now).value;
            Begin(after, configured, r, who, later) == Some(after)
  {
    hide Arrange, SetAside;
  }

  /** A plan's version goes up by one exactly when its order or what it sets aside is new. */
  lemma VersionCountsChanges(plan: Plan, configured: seq<string>, r: Request, actor: string, now: int)
    requires Begin(plan, configured, r, actor, now).Some?
    ensures var after := Begin(plan, configured, r, actor, now).value;
            && after.version == plan.version + (if after.sequence == plan.sequence && after.skipped == plan.skipped then 0 else 1)
            && (!plan.active ==> after.begunAt == Some(now) && after.begunBy == Some(actor))
  {
    hide Arrange, SetAside;
  }
}
