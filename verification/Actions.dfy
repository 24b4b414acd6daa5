/**
 An approved action and its life: prepared, executed, read back, completed or failed, and
 retried. The executors follow `EXECUTORS`; `Prepare`, `Execute` and `Verify` say what one
 call does to the action, its item and the mailbox.
 */
module Actions {
  import opened Common
  import opened Mailbox
  import Text

  datatype Kind = Label | Archive | Move | Trash | Untrash | DraftReply | SendDraft | MondayCreateTask

  const EXECUTORS := {Label, Archive, Move, Trash, Untrash, DraftReply, Kind.SendDraft}
  const GMAIL_ACTIONS := EXECUTORS
  const DRAFT_SUBJECT_PREFIX := "Re: "

  datatype State = Approved | Prepared | Executed | Verified | Completed | Failed

  datatype ItemState = ItemApproved | ItemExecuted | ItemFailed

  datatype EventKind =
    | WasApproved | WasPrepared | ExecutionStarted | WasExecuted | AdoptedExisting
    | AlreadyApplied | WasVerified | VerificationFailed | HasFailed

  datatype Ref = ThreadRef(thread: string) | DraftRef(id: nat) | MessageRef(draft: nat)

  datatype Event = Event(sequence: nat, kind: EventKind, stateAfter: State, externalRef: Option<Ref>)

  /** What was approved, as `read_strings` and `read_text` read it. */
  datatype Params = Params(
    add: seq<string>,
    remove: seq<string>,
    destination: Option<string>,
    to: seq<string>,
    subject: Option<string>,
    body: Option<string>,
    draftId: Option<nat>,
    draftMessageId: Option<nat>)

  /** The prepared parameters: an exact plan, written before anything is done. */
  datatype Plan =
    | NoPlan
    | LabelPlan(add: seq<string>, remove: seq<string>)
    | ArchivePlan
    | MovePlan(destination: string)
    | TrashPlan
    | UntrashPlan
    | DraftPlan(to: seq<string>, subject: string, body: string)
    | SendPlan(draftId: nat, draftMessageId: nat)

  datatype Row = Row(
    kind: Kind,
    thread: string,
    params: Params,
    plan: Plan,
    state: State,
    attempts: nat,
    externalRef: Option<Ref>,
    events: seq<Event>)

  /** What configuration grants at the moment of a call; it may differ from call to call. */
  datatype Capability = Capability(
    preparesActions: bool,
    executesApproved: bool,
    permitted: set<Kind>,
    executable: set<Kind>,
    destinations: set<string>,
    requireVerification: bool,
    writesEnabled: bool)

  datatype Outcome = Outcome(externalRef: Option<Ref>, alreadyApplied: bool, adopted: bool)

  // ---------------------------------------------------------------- events

  function HighestSequence(events: seq<Event>): nat {
    if events == [] then 0
    else
      var rest := HighestSequence(events[1..]);
      if rest < events[0].sequence then events[0].sequence else rest
  }

  function RecordEvent(r: Row, kind: EventKind, externalRef: Option<Ref>): Row {
    var event := Event(HighestSequence(r.events) + 1, kind, r.state,
                       if externalRef.Some? then externalRef else r.externalRef);
    r.(events := r.events + [event])
  }

  // ---------------------------------------------------------------- planning

  function PreparePlan(kind: Kind, p: Params, itemSubject: string): Option<Plan> {
    match kind
    case Label =>
      if p.add == [] && p.remove == [] then None
      else if exists name :: name in p.add + p.remove && Text.Upper(name) == INBOX then None
      else Some(LabelPlan(p.add, p.remove))
    case Archive => Some(ArchivePlan)
    case Move => if p.destination.None? then None else Some(MovePlan(p.destination.value))
    case Trash => Some(TrashPlan)
    case Untrash => Some(UntrashPlan)
    case DraftReply =>
      if p.to == [] || p.body.None? then None
      else Some(DraftPlan(p.to,
                          if p.subject.Some? then p.subject.value else Text.Strip(DRAFT_SUBJECT_PREFIX + itemSubject),
                          p.body.value))
    case SendDraft =>
      if p.draftId.None? || p.draftMessageId.None? then None
      else Some(SendPlan(p.draftId.value, p.draftMessageId.value))
    case MondayCreateTask => None
  }

  // ---------------------------------------------------------------- executors

  function ResolveAll(c: Client, names: seq<string>): Reply<seq<string>>
    decreases |names|
  {
    if names == [] then Answer(c, [])
    else
      var (c1, id) :- ResolveLabelId(c, names[0]);
      if id.None? then Refused(c1)
      else
        var (c2, rest) :- ResolveAll(c1, names[1..]);
        Answer(c2, [id.value] + rest)
  }

  function ResolveLabels(c: Client, plan: Plan): Reply<(seq<string>, seq<string>)> {
    var (add, remove) := if plan.LabelPlan? then (plan.add, plan.remove) else ([], []);
    var (c1, addIds) :- ResolveAll(c, add);
    var (c2, removeIds) :- ResolveAll(c1, remove);
    Answer(c2, (addIds, removeIds))
  }

  function ResolveDestination(c: Client, plan: Plan): Reply<string> {
    if !plan.MovePlan? then Refused(c)
    else
      var (c1, id) :- ResolveLabelId(c, plan.destination);
      if id.None? then Refused(c1) else Answer(c1, id.value)
  }

  function ThreadOutcome(thread: string, already: bool): Outcome {
    Outcome(Some(ThreadRef(thread)), already, false)
  }

  /** The `execute` half of each executor. */
  function Perform(r: Row, c: Client): Reply<Outcome> {
    var t := r.thread;
    match r.kind
    case Label =>
      var (c1, ids) :- ResolveLabels(c, r.plan);
      var labels := if t in c1.mail.threads then c1.mail.threads[t] else {};
      var (c2, _) :- WriteThread(c1, t, Modified(labels, Elements(ids.0), Elements(ids.1)));
      Answer(c2, ThreadOutcome(t, false))
    case Archive =>
      var (c1, labels) :- FetchThread(c, t);
      if INBOX !in labels then Answer(c1, ThreadOutcome(t, true))
      else
        var (c2, _) :- WriteThread(c1, t, Modified(labels, {}, {INBOX}));
        Answer(c2, ThreadOutcome(t, false))
    case Move =>
      var (c1, destination) :- ResolveDestination(c, r.plan);
      var (c2, labels) :- FetchThread(c1, t);
      if destination in labels && INBOX !in labels then Answer(c2, ThreadOutcome(t, true))
      else
        var (c3, _) :- WriteThread(c2, t, Modified(labels, {destination}, {INBOX}));
        Answer(c3, ThreadOutcome(t, false))
    case Trash =>
      var (c1, labels) :- FetchThread(c, t);
      if TRASH in labels then Answer(c1, ThreadOutcome(t, true))
      else
        var (c2, _) :- WriteThread(c1, t, Trashed(labels));
        Answer(c2, ThreadOutcome(t, false))
    case Untrash =>
      var (c1, labels) :- FetchThread(c, t);
      if TRASH !in labels then Answer(c1, ThreadOutcome(t, true))
      else
        var (c2, _) :- WriteThread(c1, t, Untrashed(labels));
        Answer(c2, ThreadOutcome(t, false))
    case DraftReply =>
      if r.attempts > 1 && r.externalRef.None? then
        var (c1, existing) :- FindDraftForThread(c, t);
        if existing.Some? then Answer(c1, Outcome(Some(DraftRef(existing.value)), false, true))
        else CreateReply(r, c1)
      else CreateReply(r, c)
    case SendDraft =>
      if !r.plan.SendPlan? then Refused(c)
      else
        var (c1, draft) :- FetchDraft(c, r.plan.draftId);
        if draft.None? || draft.value.messageId != r.plan.draftMessageId then Refused(c1)
        else
          var (c2, _) :- Mailbox.SendDraft(c1, r.plan.draftId);
          Answer(c2, Outcome(Some(MessageRef(r.plan.draftId)), false, false))
    case MondayCreateTask => Refused(c)
  }

  function CreateReply(r: Row, c: Client): Reply<Outcome> {
    if !r.plan.DraftPlan? then Refused(c)
    else
      var (c1, id) :- CreateDraft(c, r.thread);
      Answer(c1, Outcome(Some(DraftRef(id)), false, false))
  }

  /** The `verify` half of each executor: reads, and never writes. */
  function ReadBack(r: Row, c: Client): Reply<bool> {
    match r.kind
    case Label =>
      var (c1, ids) :- ResolveLabels(c, r.plan);
      var (c2, labels) :- FetchThread(c1, r.thread);
      Answer(c2, Elements(ids.0) <= labels && Elements(ids.1) !! labels)
    case Archive =>
      var (c1, labels) :- FetchThread(c, r.thread);
      Answer(c1, INBOX !in labels)
    case Move =>
      var (c1, destination) :- ResolveDestination(c, r.plan);
      var (c2, labels) :- FetchThread(c1, r.thread);
      Answer(c2, destination in labels && INBOX !in labels)
    case Trash =>
      var (c1, labels) :- FetchThread(c, r.thread);
      Answer(c1, TRASH in labels)
    case Untrash =>
      var (c1, labels) :- FetchThread(c, r.thread);
      Answer(c1, TRASH !in labels)
    case DraftReply =>
      if r.externalRef.None? || !r.externalRef.value.DraftRef? then Answer(c, false)
      else
        var (c1, draft) :- FetchDraft(c, r.externalRef.value.id);
        Answer(c1, draft.Some?)
    case SendDraft =>
      if !r.plan.SendPlan? then Answer(c, false)
      else
        var (c1, draft) :- FetchDraft(c, r.plan.draftId);
        Answer(c1, draft.None?)
    case MondayCreateTask => Refused(c)
  }

  // ---------------------------------------------------------------- the state machine

  predicate CheckExecutable(cap: Capability, r: Row) {
    && cap.preparesActions
    && r.kind in cap.permitted
    && r.kind in cap.executable
    && r.kind in EXECUTORS
    && (r.kind.Move? ==> r.params.destination.Some? && r.params.destination.value in cap.destinations)
  }

  /** A call either returns the row and item it left, or raises and the transaction rolls back. */
  datatype Result =
    | Returned(row: Row, item: ItemState, client: Client)
    | Raised(client: Client)

  function Prepare(cap: Capability, r: Row, itemSubject: string): Option<Row> {
    if !CheckExecutable(cap, r) then None
    else if !r.state.Approved? then Some(r)
    else
      var plan := PreparePlan(r.kind, r.params, itemSubject);
      if plan.None? then None
      else Some(RecordEvent(r.(plan := plan.value, state := Prepared), WasPrepared, None))
  }

  function Settle(r: Row, c: Client): Result {
    var verified := RecordEvent(r.(state := Verified), WasVerified, None);
    Returned(verified.(state := Completed), ItemExecuted, c)
  }

  function Fail(r: Row, c: Client): Result {
    Returned(RecordEvent(r.(state := State.Failed), HasFailed, None), ItemFailed, c)
  }

  function ExecutionEvent(o: Outcome): EventKind {
    if o.alreadyApplied then AlreadyApplied
    else if o.adopted then AdoptedExisting
    else WasExecuted
  }

  predicate MayRun(cap: Capability, r: Row) {
    && (r.state.Prepared? || r.state.Executed? || r.state.Failed?)
    && (r.kind in GMAIL_ACTIONS ==> cap.writesEnabled)
    && cap.executesApproved
  }

  function Execute(cap: Capability, r: Row, item: ItemState, c: Client): Result {
    if !CheckExecutable(cap, r) then Raised(c)
    else if r.state.Completed? then Returned(r, item, c)
    else if !MayRun(cap, r) then Raised(c)
    else
      Proceed(cap, RecordEvent(r.(attempts := r.attempts + 1), ExecutionStarted, None), c)
  }

  /** A retry reads the effect back before it would write it again. */
  function Proceed(cap: Capability, started: Row, c: Client): Result {
    if started.attempts <= 1 then Attempt(cap, started, c)
    else
      match ReadBack(started, c)
      case Failed(c1) => Fail(started, c1)
      case Refused(c1) => Fail(started, c1)
      case Answer(c1, verified) =>
        if verified then Settle(RecordEvent(started, AlreadyApplied, None), c1)
        else Attempt(cap, started, c1)
  }

  function Attempt(cap: Capability, r: Row, c: Client): Result {
    match Perform(r, c)
    case Failed(c1) => Fail(r, c1)
    case Refused(c1) => Fail(r, c1)
    case Answer(c1, outcome) =>
      var done := RecordEvent(r.(externalRef := outcome.externalRef, state := Executed),
                              ExecutionEvent(outcome), outcome.externalRef);
      if !cap.requireVerification then Settle(done, c1)
      else
        match ReadBack(done, c1)
        case Failed(c2) => Fail(done, c2)
        case Refused(c2) => Raised(c2)
        case Answer(c2, verified) =>
          if verified then Settle(done, c2)
          else Fail(RecordEvent(done, VerificationFailed, None), c2)
  }

  function Verify(r: Row, c: Client): Result {
    if r.kind !in EXECUTORS || r.state.Approved? || r.state.Prepared? then Raised(c)
    else
      match ReadBack(r, c)
      case Failed(c1) => Fail(r, c1)
      case Refused(c1) => Raised(c1)
      case Answer(c1, verified) =>
        if verified then Settle(r, c1)
        else Fail(RecordEvent(r, VerificationFailed, None), c1)
  }

  /** The row `ensure_actions` writes for an approved item. */
  function Recorded(kind: Kind, thread: string, params: Params): Row {
    RecordEvent(Row(kind, thread, params, NoPlan, Approved, 0, None, []), WasApproved, None)
  }
}
