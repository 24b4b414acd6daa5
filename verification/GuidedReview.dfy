/** A guided review from opened to finished: one review open at a time, held to the playbook it pinned. */
module GuidedReview {
  import opened Common
  import opened ReviewPlaybook
  import opened Submissions

  datatype EventKind =
    | ReviewStarted | ReviewSuperseded | PlaybookLoaded | PhaseStarted
    | SnapshotRecorded | EmailReviewRecorded | ValidationFailed | PhaseCompleted

  datatype Event = Event(sequence: nat, kind: EventKind, phaseKey: Option<string>)

  datatype Phase = Phase(key: string, status: PhaseStatus, startedAt: Option<int>, recordedAt: Option<int>, completedAt: Option<int>)

  /** What was submitted for a phase, each item with its place in the recommended order. */
  datatype Snapshot = Snapshot(
    phase: nat, threadCount: nat, itemCount: nat, items: seq<Item>, positions: seq<Option<nat>>, supersededAt: Option<int>)

  datatype Review = Review(
    document: Document, revisionId: string, status: ReviewStatus, current: Option<string>, supersedes: Option<nat>,
    completedAt: Option<int>, supersededAt: Option<int>,
    phases: seq<Phase>, snapshots: seq<Snapshot>, events: seq<Event>)

  /** Reviews in the order they were started; phases in the order of their positions. */
  type Store = seq<Review>

  predicate IsOpen(r: Review) {
    r.status.InProgress? || r.status.PartiallyComplete?
  }

  // ---------------------------------------------------------------- history

  function Highest(events: seq<Event>): nat {
    if events == [] then 0
    else
      var before, last := Highest(events[..|events| - 1]), events[|events| - 1].sequence;
      if last > before then last else before
  }

  function RecordEvent(r: Review, kind: EventKind, phaseKey: Option<string>): Review {
    r.(events := r.events + [Event(Highest(r.events) + 1, kind, phaseKey)])
  }

  // ---------------------------------------------------------------- starting

  function Opened(p: PhaseConfig): Phase {
    Phase(p.key, if Implemented(p.key) then Ready else Unavailable, None, None, None)
  }

  function OpenedPhases(ordered: seq<PhaseConfig>): (r: seq<Phase>)
    ensures |r| == |ordered| && forall i :: 0 <= i < |r| ==> r[i] == Opened(ordered[i])
  {
    seq(|ordered|, i requires 0 <= i < |ordered| => Opened(ordered[i]))
  }

  function FirstImplemented(ordered: seq<PhaseConfig>): (r: Option<nat>)
    ensures r.Some? ==> r.value < |ordered| && Implemented(ordered[r.value].key)
                        && forall i :: 0 <= i < r.value ==> !Implemented(ordered[i].key)
    ensures r.None? ==> forall i :: 0 <= i < |ordered| ==> !Implemented(ordered[i].key)
  {
    if ordered == [] then None
    else if Implemented(ordered[0].key) then Some(0)
    else
      var later := FirstImplemented(ordered[1..]);
      assert forall i :: 0 <= i < |ordered| - 1 ==> ordered[i + 1] == ordered[1..][i];
      if later.None? then None else Some(later.value + 1)
  }

  function FirstAvailable(ordered: seq<PhaseConfig>): Option<string> {
    var k := FirstImplemented(ordered);
    if k.None? then None else Some(ordered[k.value].key)
  }

  /** The first row with the key. */
  function FindRow(phases: seq<Phase>, key: string): (r: Option<nat>)
    ensures r.Some? ==> r.value < |phases| && phases[r.value].key == key
                        && forall i :: 0 <= i < r.value ==> phases[i].key != key
    ensures r.None? ==> forall i :: 0 <= i < |phases| ==> phases[i].key != key
  {
    if phases == [] then None
    else if phases[0].key == key then Some(0)
    else
      var later := FindRow(phases[1..], key);
      assert forall i :: 0 <= i < |phases| - 1 ==> phases[i + 1] == phases[1..][i];
      if later.None? then None else Some(later.value + 1)
  }

  function Begin(r: Review, now: int): Review {
    if r.current.None? then r
    else
      var started := RecordEvent(r, PhaseStarted, r.current);
      var row := FindRow(r.phases, r.current.value);
      if row.None? then started
      else started.(phases := r.phases[row.value := r.phases[row.value].(startedAt := Some(now))])
  }

  function NewReview(d: Document, revisionId: string, supersedes: Option<nat>, now: int): Review {
    var ordered := Ordered(d.phases);
    var r := Review(d, revisionId, InProgress, FirstAvailable(ordered), supersedes, None, None,
                    OpenedPhases(ordered), [], []);
    Begin(RecordEvent(RecordEvent(r, ReviewStarted, None), PlaybookLoaded, None), now)
  }

  function SetAside(r: Review, now: int): Review {
    if IsOpen(r) then RecordEvent(r.(status := Superseded, supersededAt := Some(now)), ReviewSuperseded, None) else r
  }

  function SetAsideAll(s: Store, now: int): (t: Store)
    ensures |t| == |s| && forall i :: 0 <= i < |s| ==> t[i] == SetAside(s[i], now)
  {
    seq(|s|, i requires 0 <= i < |s| => SetAside(s[i], now))
  }

  function LastOpen(s: Store): (r: Option<nat>)
    ensures r.Some? ==> r.value < |s| && IsOpen(s[r.value]) && forall i :: r.value < i < |s| ==> !IsOpen(s[i])
    ensures r.None? ==> forall i :: 0 <= i < |s| ==> !IsOpen(s[i])
  {
    if s == [] then None else if IsOpen(s[|s| - 1]) then Some(|s| - 1) else LastOpen(s[..|s| - 1])
  }

  /** Opens a review of the mailbox as it is now; a playbook that cannot be worked opens nothing. */
  ghost function Start(s: Store, d: Document, revisionId: string, now: int): Store {
    if Workable(d) then SetAsideAll(s, now) + [NewReview(d, revisionId, LastOpen(s), now)] else s
  }

  // ---------------------------------------------------------------- recording

  predicate Live(n: Snapshot, phase: nat) {
    n.phase == phase && n.supersededAt.None?
  }

  function Retired(ns: seq<Snapshot>, phase: nat, now: int): (r: seq<Snapshot>)
    ensures |r| == |ns| && forall i :: 0 <= i < |ns| ==>
              r[i] == if Live(ns[i], phase) then ns[i].(supersededAt := Some(now)) else ns[i]
  {
    seq(|ns|, i requires 0 <= i < |ns| => if Live(ns[i], phase) then ns[i].(supersededAt := Some(now)) else ns[i])
  }

  function Positions(items: seq<Item>, order: seq<string>): (r: seq<Option<nat>>)
    ensures |r| == |items| && forall i :: 0 <= i < |r| ==> r[i] == Position(order, items[i].sourceThreadId)
  {
    seq(|items|, i requires 0 <= i < |items| => Position(order, items[i].sourceThreadId))
  }

  function StandingOf(r: Review, phase: nat): Standing
    requires phase < |r.phases|
  {
    Standing(r.status, r.current, r.revisionId, r.phases[phase].status)
  }

  function Taken(r: Review, phase: nat, u: Submission, now: int): Review
    requires phase < |r.phases|
  {
    var n := Snapshot(phase, u.threadCount, |u.items|, u.items, Positions(u.items, u.recommendedOrder), None);
    var taken := r.(snapshots := Retired(r.snapshots, phase, now) + [n],
                    phases := r.phases[phase := r.phases[phase].(status := Recorded, recordedAt := Some(now))]);
    RecordEvent(RecordEvent(taken, SnapshotRecorded, Some(EMAIL_REVIEW)), EmailReviewRecorded, Some(EMAIL_REVIEW))
  }

  /** `None` where the source raises; a refusal is part of the review's history. */
  ghost function RecordEmailReview(r: Review, u: Submission, now: int): Option<Review> {
    var config := FindPhase(r.document.phases, EMAIL_REVIEW);
    var row := FindRow(r.phases, EMAIL_REVIEW);
    if config.None? || row.None? then None
    else if Acceptable(StandingOf(r, row.value), config.value, u) then Some(Taken(r, row.value, u, now))
    else Some(RecordEvent(r, ValidationFailed, Some(EMAIL_REVIEW)))
  }

  // ---------------------------------------------------------------- completing

  predicate Finished(p: Phase) {
    p.status.Done? || p.status.Unavailable?
  }

  function FirstUnfinished(phases: seq<Phase>): (r: Option<nat>)
    ensures r.Some? ==> r.value < |phases| && !Finished(phases[r.value])
                        && forall i :: 0 <= i < r.value ==> Finished(phases[i])
    ensures r.None? ==> forall i :: 0 <= i < |phases| ==> Finished(phases[i])
  {
    if phases == [] then None
    else if !Finished(phases[0]) then Some(0)
    else
      var later := FirstUnfinished(phases[1..]);
      assert forall i :: 0 <= i < |phases| - 1 ==> phases[i + 1] == phases[1..][i];
      if later.None? then None else Some(later.value + 1)
  }

  function Settled(r: Review, now: int): Review {
    var remaining := FirstUnfinished(r.phases);
    if remaining.Some? then r.(status := InProgress, current := Some(r.phases[remaining.value].key))
    else if exists p :: p in r.phases && p.status.Unavailable? then r.(status := PartiallyComplete, current := None)
    else r.(status := Completed, completedAt := Some(now), current := None)
  }

  /** `None` where the source raises: nothing changes. */
  function CompletePhase(r: Review, key: string, now: int): Option<Review> {
    var row := FindRow(r.phases, key);
    if row.None? || !r.status.InProgress? || !r.phases[row.value].status.Recorded? then None
    else
      var done := r.(phases := r.phases[row.value := r.phases[row.value].(status := Done, completedAt := Some(now))]);
      Some(Settled(RecordEvent(done, PhaseCompleted, Some(key)), now))
  }

  datatype Operation = ReadReviewPlaybook | CompleteReviewPhase

  function NextOperation(r: Review): Option<Operation> {
    var row := if r.current.None? then None else FindRow(r.phases, r.current.value);
    if r.status.Superseded? || r.status.Completed? || r.status.PartiallyComplete? || row.None? then None
    else
      match r.phases[row.value].status
      case Ready => Some(ReadReviewPlaybook)
      case Recorded => Some(CompleteReviewPhase)
      case _ => None
  }

  // ---------------------------------------------------------------- runs

  datatype Command =
    | DoStart(document: Document, revisionId: string, now: int)
    | DoRecord(id: nat, submission: Submission, now: int)
    | DoComplete(id: nat, key: string, now: int)

  function Written(s: Store, id: nat, r: Option<Review>): Store {
    if id < |s| && r.Some? then s[id := r.value] else s
  }

  ghost function Step(s: Store, c: Command): Store {
    match c
    case DoStart(d, revisionId, now) => Start(s, d, revisionId, now)
    case DoRecord(id, u, now) => if id < |s| then Written(s, id, RecordEmailReview(s[id], u, now)) else s
    case DoComplete(id, key, now) => if id < |s| then Written(s, id, CompletePhase(s[id], key, now)) else s
  }

  ghost function Run(s: Store, cs: seq<Command>): Store
    decreases |cs|
  {
    if cs == [] then s else Run(Step(s, cs[0]), cs[1..])
  }

  // ---------------------------------------------------------------- what holds

  ghost predicate Sequenced(events: seq<Event>) {
    forall i :: 0 <= i < |events| ==> events[i].sequence == i + 1
  }

  ghost predicate PhasesFollow(phases: seq<Phase>, ordered: seq<PhaseConfig>) {
    && |phases| == |ordered|
    && forall i :: 0 <= i < |phases| ==>
         phases[i].key == ordered[i].key && (phases[i].status.Unavailable? <==> !Implemented(phases[i].key))
  }

  ghost predicate AllNumbered(positions: seq<Option<nat>>) {
    && (forall i :: 0 <= i < |positions| ==> positions[i].Some? && 1 <= positions[i].value <= |positions|)
    && (forall i, j :: 0 <= i < j < |positions| ==> positions[i] != positions[j])
    && (forall p: nat :: 1 <= p <= |positions| ==> Some(p) in positions)
  }

  /** A snapshot holds every thread it claims, once each, as the pinned playbook demands. */
  ghost predicate SnapshotHolds(n: Snapshot, c: PhaseConfig) {
    && n.threadCount == n.itemCount == |n.items| == |n.positions|
    && ItemsHold(c, n.items)
    && (forall i, j :: 0 <= i < j < |n.items| ==> n.items[i].sourceThreadId != n.items[j].sourceThreadId)
    && (c.orderRequired ==> AllNumbered(n.positions))
  }

  ghost predicate SnapshotsHold(ns: seq<Snapshot>, phases: seq<Phase>, d: Document) {
    && (forall i :: 0 <= i < |ns| ==> ns[i].phase < |phases| && phases[ns[i].phase].key == EMAIL_REVIEW)
    && (forall i, c :: 0 <= i < |ns| && FindPhase(d.phases, EMAIL_REVIEW) == Some(c) ==> SnapshotHolds(ns[i], c))
    && (forall i, j :: 0 <= i < j < |ns| ==> !(Live(ns[i], ns[i].phase) && Live(ns[j], ns[i].phase)))
  }

  /** A phase has a snapshot in force exactly when something was recorded for it. */
  ghost predicate RecordedMeansSnapshot(ns: seq<Snapshot>, phases: seq<Phase>) {
    forall k :: 0 <= k < |phases| ==>
      (phases[k].status.Recorded? || phases[k].status.Done? <==> exists i :: 0 <= i < |ns| && Live(ns[i], k))
  }

  /** What each state of a review says about its phases. */
  ghost predicate StatusFits(r: Review) {
    && (r.status.InProgress? ==>
          FirstUnfinished(r.phases).Some? && r.current == Some(r.phases[FirstUnfinished(r.phases).value].key))
    && (r.status.PartiallyComplete? ==>
          && FirstUnfinished(r.phases).None? && r.current.None?
          && exists p :: p in r.phases && p.status.Unavailable?)
    && (r.status.Completed? ==> (forall p :: p in r.phases ==> p.status.Done?) && r.current.None?)
    && (r.status.Completed? <==> r.completedAt.Some?)
    && (r.status.Superseded? <==> r.supersededAt.Some?)
  }

  ghost predicate Good(r: Review) {
    && Workable(r.document) && PhasesFollow(r.phases, Ordered(r.document.phases))
    && Sequenced(r.events) && SnapshotsHold(r.snapshots, r.phases, r.document)
    && RecordedMeansSnapshot(r.snapshots, r.phases) && StatusFits(r)
  }

  /** Only the latest review may be open, and each names the one it set aside. */
  ghost predicate Succession(s: Store) {
    && (forall i :: 0 <= i < |s| - 1 ==> !IsOpen(s[i]))
    && (forall j :: 0 <= j < |s| ==>
          s[j].supersedes == if j > 0 && s[j - 1].status.Superseded? then Some(j - 1) else None)
    && (s != [] ==> !s[|s| - 1].status.Superseded?)
  }

  ghost predicate Sound(s: Store) {
    && Succession(s) && forall i :: 0 <= i < |s| ==> Good(s[i])
  }

  // ---------------------------------------------------------------- each step keeps it

  lemma {:induction false} HighestOfSequenced(events: seq<Event>)
    requires Sequenced(events)
    ensures Highest(events) == |events|
  {
    if events != [] {
      HighestOfSequenced(events[..|events| - 1]);
    }
  }

  lemma EventKeeps(r: Review, kind: EventKind, phaseKey: Option<string>)
    requires Sequenced(r.events)
    ensures Sequenced(RecordEvent(r, kind, phaseKey).events)
  {
    HighestOfSequenced(r.events);
  }

  lemma FirstAvailableIsReady(ordered: seq<PhaseConfig>)
    requires exists p :: p in ordered && Implemented(p.key)
    ensures FirstUnfinished(OpenedPhases(ordered)).Some?
    ensures FirstAvailable(ordered) == Some(OpenedPhases(ordered)[FirstUnfinished(OpenedPhases(ordered)).value].key)
  {
    var phases := OpenedPhases(ordered);
    var a, b := FirstImplemented(ordered), FirstUnfinished(phases);
    hide Implemented, FirstImplemented, FirstUnfinished;
    assert forall i :: 0 <= i < |phases| ==> Finished(phases[i]) == !Implemented(ordered[i].key);
    assert a.Some? && b.Some?;
    assert a.value == b.value;
  }

  lemma OrderedHasEmail(d: Document)
    requires Workable(d)
    ensures exists p :: p in Ordered(d.phases) && Implemented(p.key)
  {
    var ordered := Ordered(d.phases);
    var k :| 0 <= k < |PhaseKeys(d.phases)| && PhaseKeys(d.phases)[k] == EMAIL_REVIEW;
    var p := d.phases[k];
    assert p in multiset(d.phases) && p in multiset(ordered);
    assert p in ordered && Implemented(p.key);
  }

  /** Stamping a phase's times, or anything but its key and state, changes nothing checked here. */
  lemma StampKeepsFirst(phases: seq<Phase>, k: nat, p: Phase)
    requires k < |phases| && p.key == phases[k].key && p.status == phases[k].status
    ensures FirstUnfinished(phases[k := p]) == FirstUnfinished(phases)
  {
    var after := phases[k := p];
    var a, b := FirstUnfinished(phases), FirstUnfinished(after);
    assert forall i :: 0 <= i < |phases| ==> Finished(after[i]) == Finished(phases[i]);
    if a.Some? && b.Some? {
      assert a.value == b.value;
    }
  }

  lemma BeginKeeps(r: Review, now: int)
    requires Good(r)
    ensures Good(Begin(r, now)) && Begin(r, now).status == r.status && Begin(r, now).supersedes == r.supersedes
  {
    if r.current.Some? {
      EventKeeps(r, PhaseStarted, r.current);
      var row := FindRow(r.phases, r.current.value);
      if row.Some? {
        var k, p := row.value, r.phases[row.value].(startedAt := Some(now));
        StampKeepsFirst(r.phases, k, p);
        StampKeepsSnapshots(r, k, p);
        hide Workable, FirstUnfinished, RecordEvent, SnapshotsHold, RecordedMeansSnapshot;
        StampKeepsStatus(r, k, p);
      }
    }
  }

  lemma StampKeepsSnapshots(r: Review, k: nat, p: Phase)
    requires k < |r.phases| && p.key == r.phases[k].key && p.status == r.phases[k].status
    requires SnapshotsHold(r.snapshots, r.phases, r.document) && RecordedMeansSnapshot(r.snapshots, r.phases)
    ensures SnapshotsHold(r.snapshots, r.phases[k := p], r.document)
    ensures RecordedMeansSnapshot(r.snapshots, r.phases[k := p])
  {
    hide SnapshotHolds;
  }

  lemma StampKeepsStatus(r: Review, k: nat, p: Phase)
    requires k < |r.phases| && p.key == r.phases[k].key && p.status == r.phases[k].status
    requires StatusFits(r) && FirstUnfinished(r.phases[k := p]) == FirstUnfinished(r.phases)
    ensures StatusFits(r.(phases := r.phases[k := p]))
  {
    var after := r.phases[k := p];
    hide FirstUnfinished;
    if r.status.PartiallyComplete? {
      var q :| q in r.phases && q.status.Unavailable?;
      var i :| 0 <= i < |r.phases| && r.phases[i] == q;
      assert after[i] in after && after[i].status.Unavailable?;
    }
  }

  lemma NewReviewIsGood(d: Document, revisionId: string, supersedes: Option<nat>, now: int)
    requires Workable(d)
    ensures var r := NewReview(d, revisionId, supersedes, now);
            Good(r) && r.status.InProgress? && r.supersedes == supersedes
  {
    var ordered := Ordered(d.phases);
    OrderedHasEmail(d);
    FirstAvailableIsReady(ordered);
    var r := Review(d, revisionId, InProgress, FirstAvailable(ordered), supersedes, None, None,
                    OpenedPhases(ordered), [], []);
    hide Workable, Ordered, FirstUnfinished, FirstAvailable;
    assert Good(r);
    EventKeeps(r, ReviewStarted, None);
    var r1 := RecordEvent(r, ReviewStarted, None);
    EventKeeps(r1, PlaybookLoaded, None);
    assert Good(RecordEvent(r1, PlaybookLoaded, None));
    BeginKeeps(RecordEvent(r1, PlaybookLoaded, None), now);
  }

  lemma SetAsideOpenOnly(r: Review, now: int)
    ensures SetAside(r, now)
            == if IsOpen(r) then RecordEvent(r.(status := Superseded, supersededAt := Some(now)), ReviewSuperseded, None)
               else r
  {
  }

  lemma SetAsideKeeps(r: Review, now: int)
    requires Good(r)
    ensures Good(SetAside(r, now)) && !IsOpen(SetAside(r, now)) && SetAside(r, now).supersedes == r.supersedes
    ensures SetAside(r, now).status.Superseded? <==> r.status.Superseded? || IsOpen(r)
  {
    if IsOpen(r) {
      EventKeeps(r.(status := Superseded, supersededAt := Some(now)), ReviewSuperseded, None);
    }
    hide Workable, PhasesFollow, Ordered, SnapshotsHold, RecordedMeansSnapshot, FirstUnfinished;
  }

  lemma StartSucceeds(s: Store, after: Store, r: Review)
    requires Succession(s) && |after| == |s| && IsOpen(r) && r.supersedes == LastOpen(s)
    requires forall i :: 0 <= i < |s| ==>
               !IsOpen(after[i]) && after[i].supersedes == s[i].supersedes
               && (after[i].status.Superseded? <==> s[i].status.Superseded? || IsOpen(s[i]))
    ensures Succession(after + [r])
  {
    var t := after + [r];
    assert LastOpen(s) == if s != [] && IsOpen(s[|s| - 1]) then Some(|s| - 1) else None;
    hide LastOpen;
    assert forall i :: 0 <= i < |s| ==> t[i] == after[i];
    forall j | 0 <= j < |t|
      ensures t[j].supersedes == if j > 0 && t[j - 1].status.Superseded? then Some(j - 1) else None
    {
      if j == |s| && j > 0 {
        assert t[j - 1] == after[j - 1];
      }
    }
  }

  lemma SoundWith(s: Store, r: Review)
    requires Succession(s + [r]) && Good(r) && forall i :: 0 <= i < |s| ==> Good(s[i])
    ensures Sound(s + [r])
  {
    hide Good, Succession;
  }

  lemma SetAsideAllKeeps(s: Store, now: int)
    requires Sound(s)
    ensures var after := SetAsideAll(s, now);
            forall i :: 0 <= i < |s| ==>
              && Good(after[i]) && !IsOpen(after[i]) && after[i].supersedes == s[i].supersedes
              && (after[i].status.Superseded? <==> s[i].status.Superseded? || IsOpen(s[i]))
  {
    var after := SetAsideAll(s, now);
    forall i | 0 <= i < |s|
      ensures Good(after[i]) && !IsOpen(after[i]) && after[i].supersedes == s[i].supersedes
      ensures after[i].status.Superseded? <==> s[i].status.Superseded? || IsOpen(s[i])
    {
      SetAsideKeeps(s[i], now);
      hide SetAside, Good;
    }
  }

  lemma StartIsSound(s: Store, d: Document, revisionId: string, now: int)
    requires Sound(s)
    ensures Sound(Start(s, d, revisionId, now))
  {
    if Workable(d) {
      var r := NewReview(d, revisionId, LastOpen(s), now);
      var after := SetAsideAll(s, now);
      assert Start(s, d, revisionId, now) == after + [r];
      NewReviewIsGood(d, revisionId, LastOpen(s), now);
      SetAsideAllKeeps(s, now);
      assert Succession(s) && IsOpen(r);
      hide *;
      StartSucceeds(s, after, r);
      SoundWith(after, r);
    }
  }

  // ---------------------------------------------------------------- recording keeps it

  lemma RetiredHold(ns: seq<Snapshot>, phase: nat, now: int, phases: seq<Phase>, d: Document)
    requires SnapshotsHold(ns, phases, d)
    ensures SnapshotsHold(Retired(ns, phase, now), phases, d)
    ensures forall i :: 0 <= i < |ns| ==> !Live(Retired(ns, phase, now)[i], phase)
  {
    var after := Retired(ns, phase, now);
    forall i, c | 0 <= i < |after| && FindPhase(d.phases, EMAIL_REVIEW) == Some(c)
      ensures SnapshotHolds(after[i], c)
    {
      assert SnapshotHolds(ns[i], c);
    }
  }

  lemma SubmissionHolds(g: Standing, c: PhaseConfig, u: Submission, phase: nat)
    requires Acceptable(g, c, u)
    ensures SnapshotHolds(
              Snapshot(phase, u.threadCount, |u.items|, u.items, Positions(u.items, u.recommendedOrder), None), c)
  {
    var ids, positions := u.ThreadIds(), Positions(u.items, u.recommendedOrder);
    assert forall i :: 0 <= i < |ids| ==> ids[i] == u.items[i].sourceThreadId;
    if c.orderRequired {
      PositionsNumberTheItems(g, c, u);
      hide Acceptable, Position;
      forall p: nat | 1 <= p <= |positions|
        ensures Some(p) in positions
      {
        assert Placed(u.recommendedOrder, ids, p);
        var i :| 0 <= i < |ids| && Position(u.recommendedOrder, ids[i]) == Some(p);
        assert positions[i] == Some(p);
      }
    }
  }

  lemma AppendedHolds(ns: seq<Snapshot>, n: Snapshot, phases: seq<Phase>, d: Document)
    requires SnapshotsHold(ns, phases, d)
    requires n.phase < |phases| && phases[n.phase].key == EMAIL_REVIEW
    requires forall c :: FindPhase(d.phases, EMAIL_REVIEW) == Some(c) ==> SnapshotHolds(n, c)
    requires forall i :: 0 <= i < |ns| ==> !Live(ns[i], n.phase)
    ensures SnapshotsHold(ns + [n], phases, d)
  {
    hide SnapshotHolds, FindPhase;
    var all := ns + [n];
    forall i, j | 0 <= i < j < |all|
      ensures !(Live(all[i], all[i].phase) && Live(all[j], all[i].phase))
    {
      if j == |ns| && all[i].phase == n.phase {
        assert all[i] == ns[i];
      }
    }
  }

  lemma MarkedKeepsSnapshots(ns: seq<Snapshot>, phases: seq<Phase>, d: Document, k: nat, p: Phase)
    requires k < |phases| && p.key == phases[k].key && SnapshotsHold(ns, phases, d)
    ensures SnapshotsHold(ns, phases[k := p], d)
  {
    hide SnapshotHolds, FindPhase;
  }

  lemma RecordedSnapshots(ns: seq<Snapshot>, n: Snapshot, phases: seq<Phase>, now: int, p: Phase)
    requires RecordedMeansSnapshot(ns, phases) && n.phase < |phases| && n.supersededAt.None?
    requires p.status.Recorded?
    ensures RecordedMeansSnapshot(Retired(ns, n.phase, now) + [n], phases[n.phase := p])
  {
    var all, after := Retired(ns, n.phase, now) + [n], phases[n.phase := p];
    forall k | 0 <= k < |phases|
      ensures after[k].status.Recorded? || after[k].status.Done? <==> exists i :: 0 <= i < |all| && Live(all[i], k)
    {
      if k == n.phase {
        assert Live(all[|ns|], k);
      } else {
        assert forall i :: 0 <= i < |ns| ==> Live(all[i], k) == Live(ns[i], k);
        assert !Live(all[|ns|], k);
        if after[k].status.Recorded? || after[k].status.Done? {
          var i :| 0 <= i < |ns| && Live(ns[i], k);
          assert Live(all[i], k);
        }
      }
    }
  }

  /** Marking the current phase recorded leaves it the first unfinished one. */
  lemma RecordedStaysFirst(phases: seq<Phase>, k: nat, p: Phase)
    requires k < |phases| && !Finished(phases[k]) && p.key == phases[k].key && !Finished(p)
    ensures FirstUnfinished(phases[k := p]) == FirstUnfinished(phases)
  {
    var after := phases[k := p];
    var a, b := FirstUnfinished(phases), FirstUnfinished(after);
    assert forall i :: 0 <= i < |phases| ==> Finished(after[i]) == Finished(phases[i]);
    assert !Finished(after[k]);
    assert a.Some? && b.Some?;
    hide FirstUnfinished;
    assert a.value == b.value;
  }

  /** One phase marked and one snapshot added: all but the history, which is checked apart. */
  lemma MarkedIsGood(r: Review, k: nat, p: Phase, ns: seq<Snapshot>)
    requires Good(r) && r.status.InProgress? && k < |r.phases|
    requires p.key == r.phases[k].key && !Finished(p) && !Finished(r.phases[k])
    requires SnapshotsHold(ns, r.phases[k := p], r.document) && RecordedMeansSnapshot(ns, r.phases[k := p])
    ensures Good(r.(snapshots := ns, phases := r.phases[k := p]))
  {
    RecordedStaysFirst(r.phases, k, p);
    hide Workable, Ordered, FirstUnfinished, SnapshotsHold, RecordedMeansSnapshot, Sequenced;
  }

  lemma EventIsGood(r: Review, kind: EventKind, phaseKey: Option<string>)
    requires Good(r)
    ensures Good(RecordEvent(r, kind, phaseKey))
  {
    EventKeeps(r, kind, phaseKey);
    hide Workable, PhasesFollow, SnapshotsHold, RecordedMeansSnapshot, Sequenced, FirstUnfinished;
  }

  lemma TakenIsGood(r: Review, k: nat, c: PhaseConfig, u: Submission, now: int)
    requires Good(r) && FindRow(r.phases, EMAIL_REVIEW) == Some(k)
    requires FindPhase(r.document.phases, EMAIL_REVIEW) == Some(c) && Acceptable(StandingOf(r, k), c, u)
    ensures Good(Taken(r, k, u, now)) && Taken(r, k, u, now).status == r.status
    ensures Taken(r, k, u, now).supersedes == r.supersedes
  {
    var n := Snapshot(k, u.threadCount, |u.items|, u.items, Positions(u.items, u.recommendedOrder), None);
    var p := r.phases[k].(status := Recorded, recordedAt := Some(now));
    var ns := Retired(r.snapshots, k, now) + [n];
    var taken := r.(snapshots := ns, phases := r.phases[k := p]);
    assert Implemented(EMAIL_REVIEW) && !Finished(r.phases[k]) && r.status.InProgress?;
    assert SnapshotsHold(r.snapshots, r.phases, r.document) && RecordedMeansSnapshot(r.snapshots, r.phases);
    SubmissionHolds(StandingOf(r, k), c, u, k);
    hide Good, Acceptable, SnapshotsHold, RecordedMeansSnapshot, SnapshotHolds, Retired, Positions, FindRow;
    RetiredHold(r.snapshots, k, now, r.phases, r.document);
    AppendedHolds(Retired(r.snapshots, k, now), n, r.phases, r.document);
    MarkedKeepsSnapshots(ns, r.phases, r.document, k, p);
    RecordedSnapshots(r.snapshots, n, r.phases, now, p);
    MarkedIsGood(r, k, p, ns);
    EventIsGood(taken, SnapshotRecorded, Some(EMAIL_REVIEW));
    EventIsGood(RecordEvent(taken, SnapshotRecorded, Some(EMAIL_REVIEW)), EmailReviewRecorded, Some(EMAIL_REVIEW));
  }

  lemma RecordIsGood(r: Review, u: Submission, now: int)
    requires Good(r) && RecordEmailReview(r, u, now).Some?
    ensures var after := RecordEmailReview(r, u, now).value;
            Good(after) && after.status == r.status && after.supersedes == r.supersedes
  {
    var c, k := FindPhase(r.document.phases, EMAIL_REVIEW).value, FindRow(r.phases, EMAIL_REVIEW).value;
    if Acceptable(StandingOf(r, k), c, u) {
      TakenIsGood(r, k, c, u, now);
    } else {
      EventIsGood(r, ValidationFailed, Some(EMAIL_REVIEW));
    }
  }

  // ---------------------------------------------------------------- completing keeps it

  lemma DoneKeepsRest(r: Review, k: nat, p: Phase)
    requires Good(r) && k < |r.phases| && r.phases[k].status.Recorded? && p.status.Done? && p.key == r.phases[k].key
    ensures PhasesFollow(r.phases[k := p], Ordered(r.document.phases))
    ensures SnapshotsHold(r.snapshots, r.phases[k := p], r.document)
    ensures RecordedMeansSnapshot(r.snapshots, r.phases[k := p])
  {
    MarkedKeepsSnapshots(r.snapshots, r.phases, r.document, k, p);
    hide SnapshotsHold, Workable, StatusFits, Sequenced, Ordered;
  }

  lemma CompleteIsGood(r: Review, key: string, now: int)
    requires Good(r) && CompletePhase(r, key, now).Some?
    ensures var after := CompletePhase(r, key, now).value;
            Good(after) && !after.status.Superseded? && after.supersedes == r.supersedes
  {
    var k := FindRow(r.phases, key).value;
    var p := r.phases[k].(status := Done, completedAt := Some(now));
    var done := r.(phases := r.phases[k := p]);
    DoneKeepsRest(r, k, p);
    EventKeeps(done, PhaseCompleted, Some(key));
    SettledFits(RecordEvent(done, PhaseCompleted, Some(key)), now);
    hide PhasesFollow, Workable, SnapshotsHold, RecordedMeansSnapshot, Sequenced, FirstUnfinished, FindRow;
  }

  lemma SettledFits(r: Review, now: int)
    requires r.completedAt.None? && r.supersededAt.None? && r.status.InProgress?
    ensures StatusFits(Settled(r, now)) && !Settled(r, now).status.Superseded?
  {
    var first := FirstUnfinished(r.phases);
    hide FirstUnfinished;
    if first.None? && !exists p :: p in r.phases && p.status.Unavailable? {
      forall p | p in r.phases
        ensures p.status.Done?
      {
        var i :| 0 <= i < |r.phases| && r.phases[i] == p;
        assert Finished(r.phases[i]);
      }
    }
  }

  lemma WriteIsSound(s: Store, id: nat, r: Review)
    requires Sound(s) && id < |s| && Good(r) && r.supersedes == s[id].supersedes
    requires r.status.Superseded? <==> s[id].status.Superseded?
    requires IsOpen(r) ==> IsOpen(s[id])
    ensures Sound(s[id := r])
  {
    hide Good;
    var t := s[id := r];
    forall i | 0 <= i < |s|
      ensures Good(t[i]) && t[i].supersedes == s[i].supersedes
      ensures t[i].status.Superseded? <==> s[i].status.Superseded?
      ensures IsOpen(t[i]) ==> IsOpen(s[i])
    {
      assert t[i] == if i == id then r else s[i];
    }
    forall j | 0 <= j < |t|
      ensures t[j].supersedes == if j > 0 && t[j - 1].status.Superseded? then Some(j - 1) else None
    {
      assert s[j].supersedes == if j > 0 && s[j - 1].status.Superseded? then Some(j - 1) else None;
      assert j > 0 ==> (t[j - 1].status.Superseded? <==> s[j - 1].status.Superseded?);
    }
    assert Succession(t);
  }

  lemma RecordIsSound(s: Store, id: nat, u: Submission, now: int)
    requires Sound(s)
    ensures Sound(Step(s, DoRecord(id, u, now)))
  {
    hide Good, RecordEmailReview;
    if id < |s| && RecordEmailReview(s[id], u, now).Some? {
      RecordIsGood(s[id], u, now);
      WriteIsSound(s, id, RecordEmailReview(s[id], u, now).value);
    }
  }

  lemma CompleteIsSound(s: Store, id: nat, key: string, now: int)
    requires Sound(s)
    ensures Sound(Step(s, DoComplete(id, key, now)))
  {
    if id < |s| && CompletePhase(s[id], key, now).Some? {
      assert s[id].status.InProgress?;
      hide Good, CompletePhase;
      CompleteIsGood(s[id], key, now);
      WriteIsSound(s, id, CompletePhase(s[id], key, now).value);
    }
  }

  lemma StepIsSound(s: Store, c: Command)
    requires Sound(s)
    ensures Sound(Step(s, c))
  {
    match c {
      case DoStart(d, revisionId, now) => StartIsSound(s, d, revisionId, now);
      case DoRecord(id, u, now) => RecordIsSound(s, id, u, now);
      case DoComplete(id, key, now) => CompleteIsSound(s, id, key, now);
    }
  }

  /**
   In every reachable store at most one review is open, each phase has at most one snapshot in
   force and it holds what the pinned playbook demands, each state of a review fits its phases,
   and every history is numbered 1 to n.
   */
  lemma {:induction false} RunIsSound(s: Store, cs: seq<Command>)
    requires Sound(s)
    ensures Sound(Run(s, cs))
    decreases |cs|
  {
    if cs != [] {
      StepIsSound(s, cs[0]);
      RunIsSound(Step(s, cs[0]), cs[1..]);
    }
  }

  // ---------------------------------------------------------------- what never changes

  /** Later readings of one review: nothing pinned moves, nothing finished comes undone. */
  ghost predicate Follows(r: Review, after: Review) {
    && after.document == r.document && after.revisionId == r.revisionId && after.supersedes == r.supersedes
    && r.events <= after.events
    && |after.phases| == |r.phases|
    && (forall i :: 0 <= i < |r.phases| ==>
          && after.phases[i].key == r.phases[i].key
          && (after.phases[i].status.Unavailable? <==> r.phases[i].status.Unavailable?)
          && (r.phases[i].status.Done? ==> after.phases[i] == r.phases[i]))
    && |r.snapshots| <= |after.snapshots|
    && (forall i :: 0 <= i < |r.snapshots| ==>
          || after.snapshots[i] == r.snapshots[i]
          || (r.snapshots[i].supersededAt.None?
              && after.snapshots[i] == r.snapshots[i].(supersededAt := after.snapshots[i].supersededAt)))
    && (r.status.Completed? || r.status.Superseded? ==> after.status == r.status)
  }

  lemma FollowsOn(a: Review, b: Review, c: Review)
    requires Follows(a, b) && Follows(b, c)
    ensures Follows(a, c)
  {
  }

  lemma SetAsideFollows(r: Review, now: int)
    ensures Follows(r, SetAside(r, now))
  {
  }

  lemma RecordFollows(r: Review, u: Submission, now: int)
    requires Good(r) && RecordEmailReview(r, u, now).Some?
    ensures Follows(r, RecordEmailReview(r, u, now).value)
  {
    var k := FindRow(r.phases, EMAIL_REVIEW).value;
    assert Implemented(EMAIL_REVIEW) && !r.phases[k].status.Unavailable?;
    hide FindPhase, Highest, Positions, Good;
    if Acceptable(StandingOf(r, k), FindPhase(r.document.phases, EMAIL_REVIEW).value, u) {
      TakenFollows(r, k, u, now);
    }
  }

  lemma TakenFollows(r: Review, k: nat, u: Submission, now: int)
    requires k < |r.phases| && !Finished(r.phases[k]) && r.status.InProgress?
    ensures Follows(r, Taken(r, k, u, now))
  {
    hide Positions, Highest;
  }

  lemma CompleteFollows(r: Review, key: string, now: int)
    requires CompletePhase(r, key, now).Some?
    ensures Follows(r, CompletePhase(r, key, now).value)
  {
    hide FindRow, Highest, FirstUnfinished;
  }

  lemma StepFollows(s: Store, c: Command, i: nat)
    requires Sound(s) && i < |s|
    ensures i < |Step(s, c)| && Follows(s[i], Step(s, c)[i])
  {
    hide Good, RecordEmailReview, CompletePhase, SetAside, NewReview, Workable;
    match c {
      case DoStart(d, revisionId, now) => SetAsideFollows(s[i], now);
      case DoRecord(id, u, now) =>
        if id == i && RecordEmailReview(s[i], u, now).Some? {
          RecordFollows(s[i], u, now);
        }
      case DoComplete(id, key, now) =>
        if id == i && CompletePhase(s[i], key, now).Some? {
          CompleteFollows(s[i], key, now);
        }
    }
  }

  /** Over every run, a review keeps its pinned revision and its unavailable phases, and its history only grows. */
  lemma {:induction false} RunFollows(s: Store, cs: seq<Command>, i: nat)
    requires Sound(s) && i < |s|
    ensures i < |Run(s, cs)| && Follows(s[i], Run(s, cs)[i])
    decreases |cs|
  {
    if cs != [] {
      StepIsSound(s, cs[0]);
      StepFollows(s, cs[0], i);
      RunFollows(Step(s, cs[0]), cs[1..], i);
      FollowsOn(s[i], Step(s, cs[0])[i], Run(s, cs)[i]);
    }
  }

  function Unfinished(phases: seq<Phase>): nat {
    if phases == [] then 0
    else Unfinished(phases[..|phases| - 1]) + if Finished(phases[|phases| - 1]) then 0 else 1
  }

  lemma {:induction false} OneFewer(phases: seq<Phase>, k: nat, p: Phase)
    requires k < |phases| && !Finished(phases[k]) && Finished(p)
    ensures Unfinished(phases[k := p]) == Unfinished(phases) - 1
  {
    var front, after := phases[..|phases| - 1], phases[k := p];
    if k == |phases| - 1 {
      assert after[..|phases| - 1] == front;
    } else {
      OneFewer(front, k, p);
      assert after[..|phases| - 1] == front[k := p];
    }
  }

  lemma {:induction false} NoneUnfinished(phases: seq<Phase>)
    ensures Unfinished(phases) == 0 <==> FirstUnfinished(phases).None?
  {
    if phases != [] {
      var front, last := phases[..|phases| - 1], phases[|phases| - 1];
      NoneUnfinished(front);
      assert phases == front + [last];
    }
  }

  /** Each completion leaves one phase fewer, and the review stays open for work exactly while any is left. */
  lemma CompletionProgresses(r: Review, key: string, now: int)
    requires CompletePhase(r, key, now).Some?
    ensures var after := CompletePhase(r, key, now).value;
            && Unfinished(after.phases) == Unfinished(r.phases) - 1
            && (after.status.InProgress? <==> Unfinished(after.phases) > 0)
            && (after.status.Completed? <==> forall p :: p in after.phases ==> p.status.Done?)
  {
    var k := FindRow(r.phases, key).value;
    var p := r.phases[k].(status := Done, completedAt := Some(now));
    var phases := r.phases[k := p];
    OneFewer(r.phases, k, p);
    NoneUnfinished(phases);
    var done := RecordEvent(r.(phases := phases), PhaseCompleted, Some(key));
    hide FirstUnfinished, FindRow, Unfinished, Highest;
    if FirstUnfinished(phases).None? && !exists q :: q in phases && q.status.Unavailable? {
      forall q | q in phases
        ensures q.status.Done?
      {
        var i :| 0 <= i < |phases| && phases[i] == q;
        assert Finished(phases[i]);
      }
    }
    if FirstUnfinished(phases).Some? {
      var u := phases[FirstUnfinished(phases).value];
      assert u in phases && !u.status.Done?;
    }
  }

  /**
   What a caller is told to do next is there to be done: a review in progress always has a next
   operation, any other review has none, and completing the current phase when told to succeeds.
   */
  lemma NextOperationIsNeverRefused(r: Review, now: int)
    requires Good(r)
    ensures NextOperation(r).Some? <==> r.status.InProgress?
    ensures NextOperation(r) == Some(CompleteReviewPhase) ==> CompletePhase(r, r.current.value, now).Some?
    ensures NextOperation(r) == Some(ReadReviewPlaybook) ==> CompletePhase(r, r.current.value, now).None?
  {
    if r.status.InProgress? {
      var k := FirstUnfinished(r.phases).value;
      var row := FindRow(r.phases, r.phases[k].key).value;
      assert Ordered(r.document.phases)[row].key == Ordered(r.document.phases)[k].key;
      OrderedKeysDiffer(r.document, row, k);
    }
    hide Workable, SnapshotsHold, RecordedMeansSnapshot, Sequenced, Ordered, FirstUnfinished, Settled;
  }

  lemma OrderedKeysDiffer(d: Document, i: nat, j: nat)
    requires Workable(d) && i < |Ordered(d.phases)| && j < |Ordered(d.phases)|
    requires Ordered(d.phases)[i].key == Ordered(d.phases)[j].key
    ensures i == j
  {
    var phases, ordered := d.phases, Ordered(d.phases);
    assert forall p, q :: 0 <= p < q < |phases| ==> PhaseKeys(phases)[p] != PhaseKeys(phases)[q];
    DistinctPermutation(ordered, phases);
    hide Ordered, Workable;
    assert ordered[i] in ordered && ordered[j] in ordered;
    var p :| 0 <= p < |phases| && phases[p] == ordered[i];
    var q :| 0 <= q < |phases| && phases[q] == ordered[j];
    assert p == q;
  }
}

/** The guided review tables, updated in place. */
module GuidedReviewRows {
  import opened Common
  import opened ReviewPlaybook
  import opened Submissions
  import Guided = GuidedReview

  class ReviewTable {
    var reviews: Guided.Store

    constructor ()
      ensures reviews == [] && Guided.Sound(reviews)
    {
      reviews := [];
    }

    /** Closes off every review still open, oldest first, and says which came last. */
    method SetAsideOpenReviews(now: int) returns (last: Option<nat>)
      modifies this
      ensures reviews == Guided.SetAsideAll(old(reviews), now) && last == Guided.LastOpen(old(reviews))
    {
      last := None;
      ghost var s := reviews;
      hide Guided.SetAside;
      for n := 0 to |reviews|
        invariant |reviews| == |s|
        invariant forall i :: 0 <= i < n ==> reviews[i] == Guided.SetAside(s[i], now)
        invariant forall i :: n <= i < |s| ==> reviews[i] == s[i]
        invariant last == Guided.LastOpen(s[..n])
      {
        assert s[..n + 1][..n] == s[..n];
        Guided.SetAsideOpenOnly(s[n], now);
        if Guided.IsOpen(reviews[n]) {
          var earlier := reviews[n].(status := Superseded, supersededAt := Some(now));
          reviews := reviews[n := Guided.RecordEvent(earlier, Guided.ReviewSuperseded, None)];
          last := Some(n);
        }
      }
      assert s[..|s|] == s;
    }

    method StartReview(d: Document, revisionId: string, now: int) returns (id: Option<nat>)
      modifies this
      ensures reviews == Guided.Start(old(reviews), d, revisionId, now)
      ensures id == if Workable(d) then Some(|old(reviews)|) else None
    {
      var report := ValidateReviewPlaybook(d);
      if report != [] {
        return None;
      }
      id := Some(|reviews|);
      hide Workable, Ordered;
      var superseded := SetAsideOpenReviews(now);
      var ordered := Ordered(d.phases);
      var r := Guided.Review(d, revisionId, InProgress, None, superseded, None, None, Guided.OpenedPhases(ordered), [], []);
      r := r.(current := Guided.FirstAvailable(ordered));
      r := Guided.RecordEvent(r, Guided.ReviewStarted, None);
      r := Guided.RecordEvent(r, Guided.PlaybookLoaded, None);
      reviews := reviews + [Guided.Begin(r, now)];
    }

    /** `None` where the source raises; otherwise every fault found, and none when it was recorded. */
    method RecordEmailReview(id: nat, u: Submission, now: int) returns (r: Option<seq<Refusal>>)
      modifies this
      ensures reviews == Guided.Step(old(reviews), Guided.DoRecord(id, u, now))
      ensures id >= |reviews| ==> r.None?
      ensures id < |reviews| ==> (r.None? <==> Guided.RecordEmailReview(old(reviews)[id], u, now).None?)
      ensures r.Some? ==>
                var review := old(reviews)[id];
                var c, k := FindPhase(review.document.phases, EMAIL_REVIEW).value, Guided.FindRow(review.phases, EMAIL_REVIEW).value;
                && (r.value == [] <==> Acceptable(Guided.StandingOf(review, k), c, u))
                && forall f :: f in r.value <==> IsFault(Guided.StandingOf(review, k), c, u, f)
    {
      if id >= |reviews| {
        return None;
      }
      var review := reviews[id];
      var config := FindPhase(review.document.phases, EMAIL_REVIEW);
      if config.None? {
        return None;
      }
      var row := Guided.FindRow(review.phases, EMAIL_REVIEW);
      if row.None? {
        return None;
      }
      hide Acceptable, IsFault, FindPhase, Guided.FindRow, Guided.Highest;
      var failures := CheckSubmission(Guided.StandingOf(review, row.value), config.value, u);
      r := Some(failures);
      if failures != [] {
        reviews := reviews[id := Guided.RecordEvent(review, Guided.ValidationFailed, Some(EMAIL_REVIEW))];
        return;
      }
      var k := row.value;
      var kept := RetireSnapshots(review.snapshots, k, now);
      var n := Guided.Snapshot(k, u.threadCount, |u.items|, u.items, Guided.Positions(u.items, u.recommendedOrder), None);
      var taken := review.(snapshots := kept + [n]);
      taken := taken.(phases := taken.phases[k := taken.phases[k].(status := Recorded, recordedAt := Some(now))]);
      taken := Guided.RecordEvent(taken, Guided.SnapshotRecorded, Some(EMAIL_REVIEW));
      taken := Guided.RecordEvent(taken, Guided.EmailReviewRecorded, Some(EMAIL_REVIEW));
      reviews := reviews[id := taken];
    }

    static method RetireSnapshots(ns: seq<Guided.Snapshot>, phase: nat, now: int) returns (kept: seq<Guided.Snapshot>)
      ensures kept == Guided.Retired(ns, phase, now)
    {
      kept := ns;
      for i := 0 to |ns|
        invariant |kept| == |ns| && forall j :: i <= j < |ns| ==> kept[j] == ns[j]
        invariant forall j :: 0 <= j < i ==> kept[j] == Guided.Retired(ns, phase, now)[j]
      {
        if Guided.Live(kept[i], phase) {
          kept := kept[i := kept[i].(supersededAt := Some(now))];
        }
      }
    }

    method CompletePhase(id: nat, key: string, now: int) returns (ok: bool)
      modifies this
      ensures reviews == Guided.Step(old(reviews), Guided.DoComplete(id, key, now))
      ensures ok <==> id < |old(reviews)| && Guided.CompletePhase(old(reviews)[id], key, now).Some?
    {
      if id >= |reviews| {
        return false;
      }
      var r := reviews[id];
      var row := Guided.FindRow(r.phases, key);
      if row.None? || r.status != InProgress {
        return false;
      }
      var phase := r.phases[row.value];
      if phase.status == Unavailable || phase.status == Done || phase.status != Recorded {
        return false;
      }
      hide Guided.FindRow, Guided.FirstUnfinished, Guided.Highest;
      r := r.(phases := r.phases[row.value := phase.(status := Done, completedAt := Some(now))]);
      r := Guided.RecordEvent(r, Guided.PhaseCompleted, Some(key));
      var remaining := Guided.FirstUnfinished(r.phases);
      if remaining.Some? {
        r := r.(status := InProgress);
        r := r.(current := Some(r.phases[remaining.value].key));
      } else if exists p :: p in r.phases && p.status == Unavailable {
        r := r.(status := PartiallyComplete);
        r := r.(current := None);
      } else {
        r := r.(status := Completed);
        r := r.(completedAt := Some(now));
        r := r.(current := None);
      }
      reviews := reviews[id := r];
      return true;
    }
  }
}
