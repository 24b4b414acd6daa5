/** What each request to a guided review writes, told from what was asked and what was there. */
module GuidedOutcomes {
  import opened Common
  import opened ReviewPlaybook
  import opened Sorting
  import opened Submissions
  import opened GuidedReview

  // ---------------------------------------------------------------- recording

  /** The last place of a thread in an order, counting from one. */
  ghost predicate Stands(order: seq<string>, thread: string, p: Option<nat>) {
    match p
    case None => thread !in order
    case Some(n) => 1 <= n <= |order| && order[n - 1] == thread && thread !in order[n..]
  }

  lemma {:induction false} PositionStands(order: seq<string>, thread: string)
    ensures Stands(order, thread, Position(order, thread))
  {
    if order != [] && order[|order| - 1] != thread {
      var front := order[..|order| - 1];
      PositionStands(front, thread);
      assert order == front + [order[|order| - 1]];
      var p := Position(front, thread);
      if p.Some? {
        assert order[p.value..] == front[p.value..] + [order[|order| - 1]];
      }
    }
  }

  /** The snapshot written is what was submitted, each item with its place in the order recommended. */
  ghost predicate Holds(n: Snapshot, phase: nat, u: Submission) {
    && Live(n, phase) && n.items == u.items && n.threadCount == u.threadCount && n.itemCount == |u.items|
    && |n.positions| == |u.items|
    && forall i :: 0 <= i < |u.items| ==> Stands(u.recommendedOrder, u.items[i].sourceThreadId, n.positions[i])
  }

  /** Exactly the snapshots in force for the phase are set aside. */
  ghost predicate SetAsideFor(before: seq<Snapshot>, after: seq<Snapshot>, phase: nat, now: int) {
    && |before| <= |after|
    && forall j :: 0 <= j < |before| ==>
         after[j] == if before[j].phase == phase && before[j].supersededAt.None?
                     then before[j].(supersededAt := Some(now)) else before[j]
  }

  ghost predicate OnlyChanged(s: Store, t: Store, id: nat) {
    |t| == |s| && id < |s| && forall j :: 0 <= j < |s| && j != id ==> t[j] == s[j]
  }

  ghost predicate Appends(before: seq<Event>, after: seq<Event>, kinds: seq<EventKind>) {
    && |after| == |before| + |kinds| && after[..|before|] == before
    && forall j :: 0 <= j < |kinds| ==> after[|before| + j].kind == kinds[j]
  }

  /**
   Recording an acceptable submission puts it in force, whole and in the order recommended, sets
   aside what was in force for the phase before, marks the phase recorded and leaves the rest.
   */
  lemma RecordStores(s: Store, id: nat, u: Submission, now: int, c: PhaseConfig, k: nat)
    requires id < |s| && FindPhase(s[id].document.phases, EMAIL_REVIEW) == Some(c)
    requires FindRow(s[id].phases, EMAIL_REVIEW) == Some(k) && Acceptable(StandingOf(s[id], k), c, u)
    ensures var t := Step(s, DoRecord(id, u, now));
            && OnlyChanged(s, t, id)
            && var was, r := s[id], t[id];
               && |r.snapshots| == |was.snapshots| + 1 && Holds(r.snapshots[|was.snapshots|], k, u)
               && SetAsideFor(was.snapshots, r.snapshots, k, now)
               && r.phases == was.phases[k := was.phases[k].(status := Recorded, recordedAt := Some(now))]
               && Appends(was.events, r.events, [SnapshotRecorded, EmailReviewRecorded])
               && r == was.(snapshots := r.snapshots, phases := r.phases, events := r.events)
  {
    hide Acceptable, FindPhase, FindRow;
    TakenStores(s[id], k, u, now);
    hide Holds, SetAsideFor, Appends, Taken;
  }

  lemma TakenStores(was: Review, k: nat, u: Submission, now: int)
    requires k < |was.phases|
    ensures var r := Taken(was, k, u, now);
            && |r.snapshots| == |was.snapshots| + 1 && Holds(r.snapshots[|was.snapshots|], k, u)
            && SetAsideFor(was.snapshots, r.snapshots, k, now)
            && r.phases == was.phases[k := was.phases[k].(status := Recorded, recordedAt := Some(now))]
            && Appends(was.events, r.events, [SnapshotRecorded, EmailReviewRecorded])
            && r == was.(snapshots := r.snapshots, phases := r.phases, events := r.events)
  {
    forall i | 0 <= i < |u.items|
      ensures Stands(u.recommendedOrder, u.items[i].sourceThreadId, Position(u.recommendedOrder, u.items[i].sourceThreadId))
    {
      PositionStands(u.recommendedOrder, u.items[i].sourceThreadId);
    }
    hide Stands, Highest, Position;
  }

  /** A submission with a fault is refused whole: only the refusal is written, in the history. */
  lemma RefusalStores(s: Store, id: nat, u: Submission, now: int, c: PhaseConfig, k: nat)
    requires id < |s| && FindPhase(s[id].document.phases, EMAIL_REVIEW) == Some(c)
    requires FindRow(s[id].phases, EMAIL_REVIEW) == Some(k) && !Acceptable(StandingOf(s[id], k), c, u)
    ensures var t := Step(s, DoRecord(id, u, now));
            && OnlyChanged(s, t, id) && t[id] == s[id].(events := t[id].events)
            && Appends(s[id].events, t[id].events, [ValidationFailed])
  {
    hide Acceptable, FindPhase, FindRow, Highest;
  }

  // ---------------------------------------------------------------- completing

  predicate Over(p: Phase) {
    p.status.Done? || p.status.Unavailable?
  }

  /** In progress on the first phase not over; with none left complete, or partly where a phase cannot be worked. */
  ghost predicate MovesOn(r: Review, now: int) {
    && (r.status.InProgress? <==> exists k :: 0 <= k < |r.phases| && !Over(r.phases[k]))
    && (forall k :: 0 <= k < |r.phases| && !Over(r.phases[k]) && (forall j :: 0 <= j < k ==> Over(r.phases[j])) ==>
          r.current == Some(r.phases[k].key))
    && (!r.status.InProgress? ==>
          && r.current.None?
          && (r.status.PartiallyComplete? <==> exists k :: 0 <= k < |r.phases| && r.phases[k].status.Unavailable?)
          && (r.status.Completed? <==> forall k :: 0 <= k < |r.phases| ==> r.phases[k].status.Done?)
          && (r.status.Completed? ==> r.completedAt == Some(now)))
  }

  lemma SettledMovesOn(r: Review, now: int)
    ensures MovesOn(Settled(r, now), now)
    ensures var after := Settled(r, now);
            after == r.(status := after.status, current := after.current, completedAt := after.completedAt)
  {
    var first := FirstUnfinished(r.phases);
    hide FirstUnfinished;
    if first.None? {
      forall k | 0 <= k < |r.phases| && r.phases[k].status.Unavailable?
        ensures exists p :: p in r.phases && p.status.Unavailable?
      {
        assert r.phases[k] in r.phases;
      }
      if p :| p in r.phases && p.status.Unavailable? {
        var k :| 0 <= k < |r.phases| && r.phases[k] == p;
      }
    } else {
      assert !Over(r.phases[first.value]);
    }
  }

  /** A phase is completed exactly when it is recorded in a review in progress; the review then moves on. */
  lemma CompleteStores(s: Store, id: nat, key: string, now: int)
    requires id < |s|
    ensures var t, row := Step(s, DoComplete(id, key, now)), FindRow(s[id].phases, key);
            if s[id].status.InProgress? && row.Some? && s[id].phases[row.value].status.Recorded? then
              var was, r, k := s[id], t[id], row.value;
              && OnlyChanged(s, t, id) && MovesOn(r, now)
              && r.phases == was.phases[k := was.phases[k].(status := Done, completedAt := Some(now))]
              && Appends(was.events, r.events, [PhaseCompleted])
              && r == was.(phases := r.phases, events := r.events,
                           status := r.status, current := r.current, completedAt := r.completedAt)
            else t == s
  {
    var row := FindRow(s[id].phases, key);
    hide FindRow, MovesOn, Highest;
    if s[id].status.InProgress? && row.Some? && s[id].phases[row.value].status.Recorded? {
      var was, k := s[id], row.value;
      var done := was.(phases := was.phases[k := was.phases[k].(status := Done, completedAt := Some(now))]);
      SettledMovesOn(RecordEvent(done, PhaseCompleted, Some(key)), now);
      hide Settled;
    }
  }

  // ---------------------------------------------------------------- starting

  ghost predicate OpenPhase(p: Phase, c: PhaseConfig) {
    && p.key == c.key && p.recordedAt.None? && p.completedAt.None?
    && (if Implemented(c.key) then p.status.Ready? else p.status.Unavailable?)
  }

  /** Every phase stands open or unavailable as it is implemented or not, and the first implemented, alone, is begun. */
  ghost predicate BegunAt(phases: seq<Phase>, ordered: seq<PhaseConfig>, k: nat, now: int) {
    && k < |ordered| == |phases|
    && Implemented(ordered[k].key) && (forall i :: 0 <= i < k ==> !Implemented(ordered[i].key))
    && (forall i :: 0 <= i < |ordered| ==> OpenPhase(phases[i], ordered[i]))
    && (forall i :: 0 <= i < |ordered| ==> phases[i].startedAt == if i == k then Some(now) else None)
  }

  /**
   Starting a workable playbook sets aside every review that was open and adds one, of that playbook,
   on its first implemented phase by position, the only phase begun; an unworkable one adds nothing.
   */
  lemma StartStores(s: Store, d: Document, revisionId: string, now: int)
    ensures var t := Step(s, DoStart(d, revisionId, now));
            if Workable(d) then
              && |t| == |s| + 1
              && (forall i :: 0 <= i < |s| ==>
                    if IsOpen(s[i]) then
                      && t[i] == s[i].(status := Superseded, supersededAt := Some(now), events := t[i].events)
                      && Appends(s[i].events, t[i].events, [ReviewSuperseded])
                    else t[i] == s[i])
              && var r, ordered := t[|s|], Ordered(d.phases);
                 && r.document == d && r.revisionId == revisionId && r.status.InProgress? && r.snapshots == []
                 && r.completedAt.None? && r.supersededAt.None?
                 && Pairwise(ordered, OrderLeq) && multiset(ordered) == multiset(d.phases)
                 && (exists k: nat :: BegunAt(r.phases, ordered, k, now) && r.current == Some(ordered[k].key))
                 && Appends([], r.events, [ReviewStarted, PlaybookLoaded, PhaseStarted])
                 && (r.supersedes.Some? ==> r.supersedes.value < |s| && IsOpen(s[r.supersedes.value]))
                 && (r.supersedes.None? ==> forall i :: 0 <= i < |s| ==> !IsOpen(s[i]))
            else t == s
  {
    if Workable(d) {
      NewReviewHolds(d, revisionId, LastOpen(s), now);
      SetAsideHolds(s, now);
      hide Workable, NewReview, LastOpen, Ordered, SetAsideAll, IsOpen, Highest;
    }
  }

  lemma SetAsideHolds(s: Store, now: int)
    ensures var t := SetAsideAll(s, now);
            forall i :: 0 <= i < |s| ==>
              if IsOpen(s[i]) then
                && t[i] == s[i].(status := Superseded, supersededAt := Some(now), events := t[i].events)
                && Appends(s[i].events, t[i].events, [ReviewSuperseded])
              else t[i] == s[i]
  {
    hide Highest;
  }

  lemma OrderedByPosition(phases: seq<PhaseConfig>)
    ensures Pairwise(Ordered(phases), OrderLeq)
  {
    SortSorts(phases, OrderLeq, (a, b) => true);
  }

  lemma NewReviewHolds(d: Document, revisionId: string, supersedes: Option<nat>, now: int)
    requires Workable(d)
    ensures var r, ordered := NewReview(d, revisionId, supersedes, now), Ordered(d.phases);
            && r.document == d && r.revisionId == revisionId && r.status.InProgress? && r.snapshots == []
            && r.completedAt.None? && r.supersededAt.None? && r.supersedes == supersedes
            && Pairwise(ordered, OrderLeq)
            && (exists k: nat :: BegunAt(r.phases, ordered, k, now) && r.current == Some(ordered[k].key))
            && Appends([], r.events, [ReviewStarted, PlaybookLoaded, PhaseStarted])
  {
    var ordered := Ordered(d.phases);
    OrderedByPosition(d.phases);
    EmailIsAmong(d);
    hide Workable, Ordered;
    SomeIsFirst(ordered);
    BegunPhases(ordered, now);
    NewReviewIs(d, revisionId, supersedes, now);
    hide NewReview, FirstImplemented, OpenPhase, Implemented, OpenedPhases;
  }

  lemma NewReviewIs(d: Document, revisionId: string, supersedes: Option<nat>, now: int)
    requires FirstImplemented(Ordered(d.phases)).Some?
    ensures var r, ordered := NewReview(d, revisionId, supersedes, now), Ordered(d.phases);
            var k := FirstImplemented(ordered).value;
            && r.document == d && r.revisionId == revisionId && r.status.InProgress? && r.snapshots == []
            && r.completedAt.None? && r.supersededAt.None? && r.supersedes == supersedes
            && r.current == Some(ordered[k].key)
            && r.phases == OpenedPhases(ordered)[k := OpenedPhases(ordered)[k].(startedAt := Some(now))]
            && Appends([], r.events, [ReviewStarted, PlaybookLoaded, PhaseStarted])
  {
    var ordered := Ordered(d.phases);
    hide Ordered, Highest, OpenedPhases;
    var k := FirstImplemented(ordered).value;
    RowOfFirst(ordered);
    hide FirstImplemented, FindRow;
  }

  lemma RowOfFirst(ordered: seq<PhaseConfig>)
    requires FirstImplemented(ordered).Some?
    ensures var k := FirstImplemented(ordered).value;
            FindRow(OpenedPhases(ordered), ordered[k].key) == Some(k)
  {
    var k, rows := FirstImplemented(ordered).value, OpenedPhases(ordered);
    assert forall i :: 0 <= i < |rows| ==> rows[i].key == ordered[i].key;
    hide FirstImplemented, FindRow, Implemented, OpenedPhases, Opened;
    var row := FindRow(rows, ordered[k].key);
    assert rows[k].key == ordered[k].key;
    hide *;
    Earliest(ordered, k, row.value);
  }

  /** The first implemented phase is the first with its key. */
  lemma Earliest(ordered: seq<PhaseConfig>, k: nat, row: nat)
    requires row <= k < |ordered| && ordered[row].key == ordered[k].key && Implemented(ordered[k].key)
    requires forall i :: 0 <= i < k ==> !Implemented(ordered[i].key)
    ensures row == k
  {
    hide Implemented;
  }

  lemma SomeIsFirst(ordered: seq<PhaseConfig>)
    requires exists i :: 0 <= i < |ordered| && Implemented(ordered[i].key)
    ensures FirstImplemented(ordered).Some?
  {
    hide Implemented;
  }

  lemma BegunPhases(ordered: seq<PhaseConfig>, now: int)
    requires FirstImplemented(ordered).Some?
    ensures var k := FirstImplemented(ordered).value;
            BegunAt(OpenedPhases(ordered)[k := OpenedPhases(ordered)[k].(startedAt := Some(now))], ordered, k, now)
  {
    var k := FirstImplemented(ordered).value;
    var phases := OpenedPhases(ordered)[k := OpenedPhases(ordered)[k].(startedAt := Some(now))];
    hide FirstImplemented, Implemented;
    forall i | 0 <= i < |ordered|
      ensures OpenPhase(phases[i], ordered[i])
    {
    }
    hide OpenPhase;
  }

  /** A workable playbook has an email review, which is implemented. */
  lemma EmailIsAmong(d: Document)
    requires Workable(d)
    ensures exists i :: 0 <= i < |Ordered(d.phases)| && Implemented(Ordered(d.phases)[i].key)
  {
    var i :| 0 <= i < |d.phases| && d.phases[i].key == EMAIL_REVIEW;
    MembersOf(Ordered(d.phases), d.phases);
    hide Ordered;
    assert d.phases[i] in Ordered(d.phases);
    var k :| 0 <= k < |Ordered(d.phases)| && Ordered(d.phases)[k] == d.phases[i];
    assert Implemented(EMAIL_REVIEW);
  }
}
