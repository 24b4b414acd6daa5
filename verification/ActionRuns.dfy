/**
 Safety of an action over whole runs. A run is any sequence of prepare, execute, retry and
 verify calls, each with its own configuration and its own adversarial fault script, with
 transactions that may be lost after Gmail acted and other writers busy elsewhere.
 */
module ActionRuns {
  import opened Common
  import opened Mailbox
  import opened Actions

  /** `lost` counts the drafts Gmail wrote in a first attempt of which no record was kept. */
  datatype World = World(mail: Mail, row: Row, item: ItemState, subject: string, lost: nat)

  datatype Command =
    | DoPrepare(cap: Capability)
    | DoExecute(cap: Capability, faults: seq<Fault>, committed: bool)
    | DoVerify(faults: seq<Fault>, committed: bool)
    | Elsewhere(after: Mail)

  /** Another writer may do anything that leaves this thread, the labels and our own tally alone. */
  ghost predicate Untouched(before: Mail, after: Mail, thread: string) {
    && ThreadOf(before, thread) == ThreadOf(after, thread)
    && before.labelIds == after.labelIds
    && before.created == after.created
    && before.sent == after.sent
    && |before.drafts| <= |after.drafts|
    && (forall i :: 0 <= i < |before.drafts| ==>
          after.drafts[i].thread == before.drafts[i].thread
          && (after.drafts[i].live ==> before.drafts[i].live))
  }

  ghost predicate KeepsDrafts(before: Mail, after: Mail) {
    forall i :: 0 <= i < |before.drafts| && Live(before, i) ==> Live(after, i)
  }

  function ThreadOf(mail: Mail, thread: string): Option<set<string>> {
    if thread in mail.threads then Some(mail.threads[thread]) else None
  }

  /** A raised call rolls the rows back and leaves what Gmail did; so does a lost transaction. */
  function Commit(w: World, res: Result, committed: bool): World {
    if committed && res.Returned? then w.(mail := res.client.mail, row := res.row, item := res.item)
    else
      var forgotten := w.row.attempts == 0 && res.client.mail.created > w.mail.created;
      w.(mail := res.client.mail, lost := w.lost + if forgotten then 1 else 0)
  }

  ghost function Step(w: World, cmd: Command): World {
    match cmd
    case DoPrepare(cap) =>
      var r := Prepare(cap, w.row, w.subject);
      if r.None? then w else w.(row := r.value)
    case DoExecute(cap, faults, committed) =>
      Commit(w, Execute(cap, w.row, w.item, Client(w.mail, faults)), committed)
    case DoVerify(faults, committed) =>
      Commit(w, Verify(w.row, Client(w.mail, faults)), committed)
    case Elsewhere(after) =>
      if Untouched(w.mail, after, w.row.thread) then w.(mail := after) else w
  }

  ghost function Run(w: World, cmds: seq<Command>): World
    decreases |cmds|
  {
    if cmds == [] then w else Run(Step(w, cmds[0]), cmds[1..])
  }

  function Start(mail: Mail, kind: Kind, thread: string, params: Params, subject: string): World {
    World(mail, Recorded(kind, thread, params), ItemApproved, subject, 0)
  }

  // ---------------------------------------------------------------- the audit

  ghost predicate Numbered(events: seq<Event>, base: nat) {
    forall i :: 0 <= i < |events| ==> events[i].sequence == base + i + 1
  }

  function Starts(events: seq<Event>): nat {
    if events == [] then 0
    else Starts(events[..|events| - 1]) + if events[|events| - 1].kind.ExecutionStarted? then 1 else 0
  }

  /** The state an action rests in when this is the last thing recorded of it. */
  function StateSaidBy(kind: EventKind): Option<State> {
    match kind
    case WasApproved => Some(Approved)
    case WasPrepared => Some(Prepared)
    case WasVerified => Some(Completed)
    case HasFailed => Some(State.Failed)
    case _ => None
  }

  ghost predicate Logged(r: Row) {
    r.events != [] && Numbered(r.events, 0) && Starts(r.events) == r.attempts
  }

  ghost predicate Audited(r: Row, item: ItemState) {
    && Logged(r)
    && StateSaidBy(r.events[|r.events| - 1].kind) == Some(r.state)
    && (r.attempts == 0 <==> r.state.Approved? || r.state.Prepared?)
    && (item == match r.state { case Completed => ItemExecuted case Failed => ItemFailed case _ => ItemApproved })
  }

  lemma {:induction false} HighestIsLast(events: seq<Event>, base: nat)
    requires Numbered(events, base)
    ensures HighestSequence(events) == if events == [] then 0 else base + |events|
  {
    if events != [] {
      HighestIsLast(events[1..], base + 1);
    }
  }

  lemma RecordingKeepsLog(r: Row, kind: EventKind, ref: Option<Ref>)
    requires Numbered(r.events, 0)
    requires Starts(r.events) + (if kind.ExecutionStarted? then 1 else 0) == r.attempts
    ensures Logged(RecordEvent(r, kind, ref)) && r.events <= RecordEvent(r, kind, ref).events
  {
    HighestIsLast(r.events, 0);
    var after := RecordEvent(r, kind, ref).events;
    assert after[..|after| - 1] == r.events;
  }

  ghost predicate Extends(r: Row, res: Result) {
    res.Returned? ==> Audited(res.row, res.item) && r.events <= res.row.events
  }

  lemma SettleAudited(r: Row, c: Client)
    requires Logged(r) && r.attempts > 0
    ensures Extends(r, Settle(r, c))
  {
    RecordingKeepsLog(r.(state := Verified), WasVerified, None);
  }

  lemma FailAudited(r: Row, c: Client)
    requires Logged(r) && r.attempts > 0
    ensures Extends(r, Fail(r, c))
  {
    RecordingKeepsLog(r.(state := State.Failed), HasFailed, None);
  }

  lemma SettleAfter(r: Row, kind: EventKind, ref: Option<Ref>, c: Client)
    requires Logged(r) && r.attempts > 0 && !kind.ExecutionStarted?
    ensures Extends(r, Settle(RecordEvent(r, kind, ref), c))
  {
    RecordingKeepsLog(r, kind, ref);
    SettleAudited(RecordEvent(r, kind, ref), c);
  }

  lemma FailAfter(r: Row, kind: EventKind, ref: Option<Ref>, c: Client)
    requires Logged(r) && r.attempts > 0 && !kind.ExecutionStarted?
    ensures Extends(r, Fail(RecordEvent(r, kind, ref), c))
  {
    RecordingKeepsLog(r, kind, ref);
    FailAudited(RecordEvent(r, kind, ref), c);
  }

  lemma AttemptAudited(cap: Capability, r: Row, c: Client)
    requires Logged(r) && r.attempts > 0
    ensures Extends(r, Attempt(cap, r, c))
  {
    match Perform(r, c)
    case Failed(c1) => FailAudited(r, c1);
    case Refused(c1) => FailAudited(r, c1);
    case Answer(c1, outcome) =>
      var e := r.(externalRef := outcome.externalRef, state := Executed);
      RecordingKeepsLog(e, ExecutionEvent(outcome), outcome.externalRef);
      var done := RecordEvent(e, ExecutionEvent(outcome), outcome.externalRef);
      if !cap.requireVerification {
        SettleAudited(done, c1);
      } else {
        match ReadBack(done, c1)
        case Failed(c2) => FailAudited(done, c2);
        case Refused(_) =>
        case Answer(c2, verified) =>
          if verified { SettleAudited(done, c2); } else { FailAfter(done, VerificationFailed, None, c2); }
      }
  }

  lemma ProceedAudited(cap: Capability, r: Row, c: Client)
    requires Logged(r) && r.attempts > 0
    ensures Extends(r, Proceed(cap, r, c))
  {
    if r.attempts <= 1 {
      AttemptAudited(cap, r, c);
    } else {
      match ReadBack(r, c)
      case Failed(c1) => FailAudited(r, c1);
      case Refused(c1) => FailAudited(r, c1);
      case Answer(c1, verified) =>
        if verified { SettleAfter(r, AlreadyApplied, None, c1); } else { AttemptAudited(cap, r, c1); }
    }
  }

  lemma ExecuteAudited(cap: Capability, r: Row, item: ItemState, c: Client)
    requires Audited(r, item)
    ensures Extends(r, Execute(cap, r, item, c))
  {
    hide Attempt;
    if CheckExecutable(cap, r) && !r.state.Completed? && MayRun(cap, r) {
      var again := r.(attempts := r.attempts + 1);
      RecordingKeepsLog(again, ExecutionStarted, None);
      ProceedAudited(cap, RecordEvent(again, ExecutionStarted, None), c);
    }
  }

  lemma VerifyAudited(r: Row, item: ItemState, c: Client)
    requires Audited(r, item)
    ensures Extends(r, Verify(r, c))
  {
    if r.kind in EXECUTORS && !r.state.Approved? && !r.state.Prepared? {
      match ReadBack(r, c)
      case Failed(c1) => FailAudited(r, c1);
      case Refused(_) =>
      case Answer(c1, verified) =>
        if verified { SettleAudited(r, c1); } else { FailAfter(r, VerificationFailed, None, c1); }
    }
  }

  lemma StepAudited(w: World, cmd: Command)
    requires Audited(w.row, w.item)
    ensures Audited(Step(w, cmd).row, Step(w, cmd).item) && w.row.events <= Step(w, cmd).row.events
  {
    match cmd
    case DoPrepare(cap) =>
      var plan := PreparePlan(w.row.kind, w.row.params, w.subject);
      if w.row.state.Approved? && plan.Some? {
        RecordingKeepsLog(w.row.(plan := plan.value, state := Prepared), WasPrepared, None);
      }
    case DoExecute(cap, faults, _) => ExecuteAudited(cap, w.row, w.item, Client(w.mail, faults));
    case DoVerify(faults, _) => VerifyAudited(w.row, w.item, Client(w.mail, faults));
    case Elsewhere(_) =>
  }

  /**
   In every run, between calls an action is approved, prepared, completed or failed and its
   last event says which; events are numbered 1..n and never rewritten; and the recorded
   attempts are exactly the EXECUTION_STARTED events.
   */
  lemma {:induction false} AuditHolds(w: World, cmds: seq<Command>)
    requires Audited(w.row, w.item)
    ensures Audited(Run(w, cmds).row, Run(w, cmds).item) && w.row.events <= Run(w, cmds).row.events
    decreases |cmds|
  {
    if cmds != [] {
      StepAudited(w, cmds[0]);
      AuditHolds(Step(w, cmds[0]), cmds[1..]);
    }
  }

  lemma RecordedIsAudited(kind: Kind, thread: string, params: Params)
    ensures Audited(Recorded(kind, thread, params), ItemApproved)
  {
    var r := Row(kind, thread, params, NoPlan, Approved, 0, None, []);
    RecordingKeepsLog(r, WasApproved, None);
    assert Recorded(kind, thread, params).events[0].kind == WasApproved;
  }
}
