/** What an action does when nothing stands in its way: asked for, granted, and every call works. */
module ActionEffects {
  import opened Common
  import opened Mailbox
  import opened Actions
  import opened ActionRuns
  import opened ActionSafety
  import Text

  predicate Willing(c: Client) {
    forall i :: 0 <= i < |c.faults| ==> c.faults[i].Works?
  }

  /** Configuration takes this action and carries it out, and the folder is one it files in. */
  predicate Grants(cap: Capability, kind: Kind, p: Params) {
    && cap.preparesActions && cap.executesApproved && cap.writesEnabled
    && kind in cap.permitted && kind in cap.executable
    && (kind.Move? ==> p.destination.Some? && p.destination.value in cap.destinations)
  }

  /** The labels named are labels the mailbox has. */
  predicate Resolvable(plan: Plan, labelIds: map<string, string>) {
    match plan
    case LabelPlan(add, remove) => forall name :: name in add + remove ==> name in labelIds
    case MovePlan(destination) => destination in labelIds
    case _ => true
  }

  /** What the thread is left with, whether or not there was anything to do. */
  function Effect(plan: Plan, labelIds: map<string, string>, labels: set<string>): set<string>
    requires Resolvable(plan, labelIds)
  {
    match plan
    case LabelPlan(add, remove) => labels + Ids(add, labelIds) - Ids(remove, labelIds)
    case ArchivePlan => labels - {INBOX}
    case MovePlan(destination) => labels + {labelIds[destination]} - {INBOX}
    case TrashPlan => if TRASH in labels then labels else labels - {INBOX} + {TRASH}
    case UntrashPlan => labels - {TRASH}
    case _ => labels
  }

  /** Found done already, and so left alone; labels are set whatever is there. */
  predicate Already(plan: Plan, labelIds: map<string, string>, labels: set<string>)
    requires Resolvable(plan, labelIds)
  {
    match plan
    case ArchivePlan => INBOX !in labels
    case MovePlan(destination) => labelIds[destination] in labels && INBOX !in labels
    case TrashPlan => TRASH in labels
    case UntrashPlan => TRASH !in labels
    case _ => false
  }

  /** The plan does not ask for a label to be both there and gone. */
  predicate Attainable(plan: Plan, labelIds: map<string, string>)
    requires Resolvable(plan, labelIds)
  {
    match plan
    case LabelPlan(add, remove) => Ids(add, labelIds) !! Ids(remove, labelIds)
    case MovePlan(destination) => labelIds[destination] != INBOX
    case _ => true
  }

  ghost predicate Ready(cap: Capability, r: Row, c: Client) {
    && (r.state.Prepared? || r.state.Executed? || r.state.Failed?)
    && Grants(cap, r.kind, r.params) && PlanFits(r.kind, r.plan) && Willing(c)
  }

  // ---------------------------------------------------------------- thread actions

  lemma {:induction false} ResolveAllWorks(c: Client, names: seq<string>)
    requires Willing(c) && forall name :: name in names ==> name in c.mail.labelIds
    ensures ResolveAll(c, names).Answer? && Willing(ResolveAll(c, names).client)
    decreases |names|
  {
    if names != [] {
      assert names[0] in names;
      var first := ResolveLabelId(c, names[0]);
      assert first.client.mail == c.mail && Willing(first.client);
      ResolveAllWorks(first.client, names[1..]);
    }
  }

  lemma ResolveLabelsWorks(c: Client, plan: Plan)
    requires plan.LabelPlan? && Willing(c) && Resolvable(plan, c.mail.labelIds)
    ensures var ids := ResolveLabels(c, plan);
            && ids.Answer? && Willing(ids.client) && ids.client.mail == c.mail
            && Elements(ids.value.0) == Ids(plan.add, c.mail.labelIds)
            && Elements(ids.value.1) == Ids(plan.remove, c.mail.labelIds)
  {
    ResolveAllWorks(c, plan.add);
    ResolveAllReads(c, plan.add);
    ResolveAllWorks(ResolveAll(c, plan.add).client, plan.remove);
    ResolveLabelsReads(c, plan);
  }

  lemma WriteWorks(c: Client, thread: string, written: set<string>)
    requires Willing(c) && thread in c.mail.threads
    ensures var w := WriteThread(c, thread, written);
            w.Answer? && Willing(w.client) && w.client.mail == c.mail.(threads := c.mail.threads[thread := written])
  {
  }

  /** The mailbox with this one thread changed. */
  function Relabelled(mail: Mail, thread: string, labels: set<string>): Mail {
    mail.(threads := mail.threads[thread := labels])
  }

  lemma PerformWorks(r: Row, c: Client)
    requires OnThread(r.kind) && PlanFits(r.kind, r.plan) && Willing(c)
    requires r.thread in c.mail.threads && Resolvable(r.plan, c.mail.labelIds)
    ensures var p, labels := Perform(r, c), c.mail.threads[r.thread];
            && p.Answer? && Willing(p.client)
            && p.client.mail == Relabelled(c.mail, r.thread, Effect(r.plan, c.mail.labelIds, labels))
            && p.value == Outcome(Some(ThreadRef(r.thread)), Already(r.plan, c.mail.labelIds, labels), false)
  {
    var labels := c.mail.threads[r.thread];
    SameLabels(c.mail, r.thread);
    match r.kind
    case Label =>
      ResolveLabelsWorks(c, r.plan);
      var ids := ResolveLabels(c, r.plan);
      WriteWorks(ids.client, r.thread, Modified(labels, Elements(ids.value.0), Elements(ids.value.1)));
      hide ResolveLabels, WriteThread;
    case Archive =>
      FetchWorks(c, r.thread);
      WriteWorks(c.Next(), r.thread, Modified(labels, {}, {INBOX}));
      hide FetchThread, WriteThread;
      assert Modified(labels, {}, {INBOX}) == labels - {INBOX};
      assert INBOX !in labels ==> labels - {INBOX} == labels;
    case Move =>
      MoveWorks(r, c);
    case Trash =>
      FetchWorks(c, r.thread);
      WriteWorks(c.Next(), r.thread, Trashed(labels));
      hide FetchThread, WriteThread;
    case Untrash =>
      FetchWorks(c, r.thread);
      WriteWorks(c.Next(), r.thread, Untrashed(labels));
      hide FetchThread, WriteThread;
      assert TRASH !in labels ==> labels - {TRASH} == labels;
  }

  lemma MoveWorks(r: Row, c: Client)
    requires r.kind.Move? && r.plan.MovePlan? && Willing(c)
    requires r.thread in c.mail.threads && Resolvable(r.plan, c.mail.labelIds)
    ensures var p, labels := Perform(r, c), c.mail.threads[r.thread];
            && p.Answer? && Willing(p.client)
            && p.client.mail == Relabelled(c.mail, r.thread, Effect(r.plan, c.mail.labelIds, labels))
            && p.value == Outcome(Some(ThreadRef(r.thread)), Already(r.plan, c.mail.labelIds, labels), false)
  {
    var labels := c.mail.threads[r.thread];
    SameLabels(c.mail, r.thread);
    var id := c.mail.labelIds[r.plan.destination];
    assert ResolveDestination(c, r.plan) == Answer(c.Next(), id);
    FetchWorks(c.Next(), r.thread);
    WriteWorks(c.Next().Next(), r.thread, Modified(labels, {id}, {INBOX}));
    hide ResolveDestination, FetchThread, WriteThread;
    assert id in labels && INBOX !in labels ==> labels + {id} - {INBOX} == labels;
  }

  lemma FetchWorks(c: Client, thread: string)
    requires Willing(c) && thread in c.mail.threads
    ensures FetchThread(c, thread) == Answer(c.Next(), c.mail.threads[thread])
    ensures Willing(c.Next()) && c.Next().mail == c.mail
  {
  }

  lemma SameLabels(mail: Mail, thread: string)
    requires thread in mail.threads
    ensures Relabelled(mail, thread, mail.threads[thread]) == mail
  {
    assert mail.threads[thread := mail.threads[thread]] == mail.threads;
  }

  lemma ReadBackWorks(r: Row, c: Client)
    requires OnThread(r.kind) && PlanFits(r.kind, r.plan) && Willing(c)
    requires r.thread in c.mail.threads && Resolvable(r.plan, c.mail.labelIds)
    ensures var b := ReadBack(r, c);
            b.Answer? && Willing(b.client) && b.client.mail == c.mail && (b.value <==> Present(r, c.mail))
  {
    if r.kind.Label? {
      ResolveLabelsWorks(c, r.plan);
      hide ResolveLabels;
    }
  }

  /** The effect shows exactly where the plan is attainable, and where it shows there is nothing left to do. */
  lemma EffectShows(r: Row, mail: Mail)
    requires OnThread(r.kind) && PlanFits(r.kind, r.plan)
    requires r.thread in mail.threads && Resolvable(r.plan, mail.labelIds)
    ensures var effect := Effect(r.plan, mail.labelIds, mail.threads[r.thread]);
            && (Present(r, Relabelled(mail, r.thread, effect)) <==> Attainable(r.plan, mail.labelIds))
            && (Present(r, mail) ==> Attainable(r.plan, mail.labelIds) && effect == mail.threads[r.thread])
  {
  }

  /** A started attempt, once its calls all work. */
  lemma AttemptWorks(cap: Capability, r: Row, c: Client)
    requires OnThread(r.kind) && PlanFits(r.kind, r.plan) && Willing(c)
    requires r.thread in c.mail.threads && Resolvable(r.plan, c.mail.labelIds)
    ensures var res, labels := Attempt(cap, r, c), c.mail.threads[r.thread];
            && res.Returned?
            && res.client.mail == Relabelled(c.mail, r.thread, Effect(r.plan, c.mail.labelIds, labels))
            && res.row.state == (if !cap.requireVerification || Attainable(r.plan, c.mail.labelIds) then Completed else State.Failed)
            && res.item == (if res.row.state.Completed? then ItemExecuted else ItemFailed)
            && res.row.externalRef == Some(ThreadRef(r.thread))
            && |res.row.events| > |r.events| && res.row.events[..|r.events|] == r.events
            && res.row.events[|r.events|].kind
               == (if Already(r.plan, c.mail.labelIds, labels) then AlreadyApplied else WasExecuted)
  {
    var labels := c.mail.threads[r.thread];
    PerformWorks(r, c);
    EffectShows(r, c.mail);
    var p := Perform(r, c);
    var done := RecordEvent(r.(externalRef := p.value.externalRef, state := Executed),
                            ExecutionEvent(p.value), p.value.externalRef);
    assert Present(done, p.client.mail) <==> Present(r, p.client.mail);
    ReadBackWorks(done, p.client);
    hide Perform, ReadBack, Present, Effect, Already, HighestSequence;
  }

  /** What an execute leaves of the mailbox, the action, its item and its history. */
  ghost predicate Did(cap: Capability, r: Row, mail: Mail, res: Result)
    requires r.thread in mail.threads && Resolvable(r.plan, mail.labelIds)
  {
    var labels := mail.threads[r.thread];
    && res.Returned?
    && res.client.mail == Relabelled(mail, r.thread, Effect(r.plan, mail.labelIds, labels))
    && res.row.state == (if !cap.requireVerification || Attainable(r.plan, mail.labelIds) then Completed else State.Failed)
    && res.item == (if res.row.state.Completed? then ItemExecuted else ItemFailed)
    && res.row.attempts == r.attempts + 1
    && |res.row.events| >= |r.events| + 2 && res.row.events[..|r.events|] == r.events
    && res.row.events[|r.events|].kind.ExecutionStarted?
    && res.row.events[|r.events| + 1].kind
       == (if Already(r.plan, mail.labelIds, labels) || (r.attempts > 0 && Present(r, mail)) then AlreadyApplied
           else WasExecuted)
  }

  function Begun(r: Row): Row {
    RecordEvent(r.(attempts := r.attempts + 1), ExecutionStarted, None)
  }

  lemma BegunIs(r: Row)
    ensures var b := Begun(r);
            && b == r.(attempts := r.attempts + 1, events := b.events)
            && |b.events| == |r.events| + 1 && b.events[..|r.events|] == r.events
            && b.events[|r.events|].kind.ExecutionStarted?
  {
  }

  lemma ExecuteProceeds(cap: Capability, r: Row, item: ItemState, c: Client)
    requires Ready(cap, r, c)
    ensures Execute(cap, r, item, c) == Proceed(cap, Begun(r), c)
  {
    hide Proceed, RecordEvent, Willing;
  }

  lemma FirstAttemptDoes(cap: Capability, r: Row, item: ItemState, c: Client)
    requires OnThread(r.kind) && Ready(cap, r, c) && r.attempts == 0
    requires r.thread in c.mail.threads && Resolvable(r.plan, c.mail.labelIds)
    ensures Did(cap, r, c.mail, Execute(cap, r, item, c))
  {
    var started := Begun(r);
    BegunIs(r);
    ExecuteProceeds(cap, r, item, c);
    hide Execute, Begun;
    AttemptWorks(cap, started, c);
    AttemptCounts(cap, started, c);
    hide Attempt, Present, Effect, Already, Attainable, Relabelled;
  }

  lemma RetryDoes(cap: Capability, r: Row, item: ItemState, c: Client)
    requires OnThread(r.kind) && Ready(cap, r, c) && r.attempts > 0
    requires r.thread in c.mail.threads && Resolvable(r.plan, c.mail.labelIds)
    ensures Did(cap, r, c.mail, Execute(cap, r, item, c))
  {
    var started := Begun(r);
    BegunIs(r);
    ExecuteProceeds(cap, r, item, c);
    hide Execute, Begun;
    EffectShows(started, c.mail);
    ReadBackWorks(started, c);
    assert Present(started, c.mail) <==> Present(r, c.mail);
    SameLabels(c.mail, r.thread);
    var c1 := ReadBack(started, c).client;
    hide Present, Effect, Already, Attainable, Relabelled, PlanFits, Attempt;
    if !Present(r, c.mail) {
      AttemptWorks(cap, started, c1);
      AttemptCounts(cap, started, c1);
    }
    hide ReadBack;
  }

  /**
   A granted action whose calls all work does what its plan says: the thread is left with the
   effect, the rest of the mailbox as it was, and the action is completed, unless verifying finds
   that the plan asked for what cannot be. On a retry the same, but that a thread found with the
   effect is not written again.
   */
  lemma ExecuteDoes(cap: Capability, r: Row, item: ItemState, c: Client)
    requires OnThread(r.kind) && Ready(cap, r, c)
    requires r.thread in c.mail.threads && Resolvable(r.plan, c.mail.labelIds)
    ensures Did(cap, r, c.mail, Execute(cap, r, item, c))
  {
    if r.attempts == 0 {
      FirstAttemptDoes(cap, r, item, c);
    } else {
      RetryDoes(cap, r, item, c);
    }
    hide Execute, Did;
  }

  lemma AttemptCounts(cap: Capability, r: Row, c: Client)
    ensures var res := Attempt(cap, r, c);
            res.Returned? ==> res.row.attempts == r.attempts
  {
    hide Perform, ReadBack, HighestSequence;
  }

  /** Verifying again completes an action that was tried exactly when its effect shows, and fails it otherwise. */
  lemma VerifyDoes(r: Row, c: Client)
    requires OnThread(r.kind) && PlanFits(r.kind, r.plan) && Willing(c) && !r.state.Approved? && !r.state.Prepared?
    requires r.thread in c.mail.threads && Resolvable(r.plan, c.mail.labelIds)
    ensures var res := Verify(r, c);
            && res.Returned? && res.client.mail == c.mail
            && res.row.state == (if Present(r, c.mail) then Completed else State.Failed)
            && res.item == (if Present(r, c.mail) then ItemExecuted else ItemFailed)
            && |res.row.events| > |r.events|
            && res.row.events[|r.events|].kind == (if Present(r, c.mail) then WasVerified else VerificationFailed)
  {
    ReadBackWorks(r, c);
    hide ReadBack, Present, HighestSequence;
  }

  // ---------------------------------------------------------------- from what was asked

  /** A request that can be made an exact plan. */
  predicate Plannable(kind: Kind, p: Params) {
    match kind
    case Label => (p.add != [] || p.remove != []) && forall name :: name in p.add + p.remove ==> Text.Upper(name) != INBOX
    case Move => p.destination.Some?
    case DraftReply => p.to != [] && p.body.Some?
    case SendDraft => p.draftId.Some? && p.draftMessageId.Some?
    case MondayCreateTask => false
    case _ => true
  }

  /** Every detail of the plan is as it was asked for; only a draft's subject has a default. */
  ghost predicate AsAsked(kind: Kind, p: Params, subject: string, plan: Plan) {
    && PlanFits(kind, plan)
    && (kind.Label? ==> plan.add == p.add && plan.remove == p.remove)
    && (kind.Move? ==> Some(plan.destination) == p.destination)
    && (kind.DraftReply? ==>
          && plan.to == p.to && Some(plan.body) == p.body
          && (p.subject.Some? ==> plan.subject == p.subject.value)
          && (p.subject.None? ==> plan.subject == Text.Strip("Re: " + subject)))
    && (kind.SendDraft? ==> Some(plan.draftId) == p.draftId && Some(plan.draftMessageId) == p.draftMessageId)
  }

  /** An approved action is prepared exactly when it is granted and its request can be planned, and then as asked. */
  lemma PreparedExactlyWhen(cap: Capability, r: Row, subject: string)
    requires r.state.Approved?
    ensures Prepare(cap, r, subject).Some? <==>
              && cap.preparesActions && r.kind in cap.permitted && r.kind in cap.executable
              && (r.kind.Move? ==> r.params.destination.Some? && r.params.destination.value in cap.destinations)
              && Plannable(r.kind, r.params)
    ensures Prepare(cap, r, subject).Some? ==>
              var after := Prepare(cap, r, subject).value;
              && after == r.(state := Prepared, plan := after.plan, events := after.events)
              && AsAsked(r.kind, r.params, subject, after.plan)
              && |after.events| == |r.events| + 1 && after.events[|r.events|].kind.WasPrepared?
  {
  }

  /** What was asked of the thread, as its labels will show. */
  function Asked(kind: Kind, p: Params, labelIds: map<string, string>, labels: set<string>): set<string>
    requires kind.Label? ==> forall name :: name in p.add + p.remove ==> name in labelIds
    requires kind.Move? ==> p.destination.Some? && p.destination.value in labelIds
  {
    match kind
    case Label => labels + Ids(p.add, labelIds) - Ids(p.remove, labelIds)
    case Archive => labels - {INBOX}
    case Move => labels + {labelIds[p.destination.value]} - {INBOX}
    case Trash => if TRASH in labels then labels else labels - {INBOX} + {TRASH}
    case Untrash => labels - {TRASH}
    case _ => labels
  }

  /**
   From approval to done: a thread action that is granted, can be planned and names labels the
   mailbox has is prepared, executed and completed, and leaves its thread as was asked, everything
   else alone.
   */
  lemma DoneAsAsked(cap: Capability, mail: Mail, kind: Kind, thread: string, p: Params, subject: string)
    requires OnThread(kind) && Grants(cap, kind, p) && Plannable(kind, p) && thread in mail.threads
    requires kind.Label? ==> (forall name :: name in p.add + p.remove ==> name in mail.labelIds)
                             && Ids(p.add, mail.labelIds) !! Ids(p.remove, mail.labelIds)
    requires kind.Move? ==> p.destination.value in mail.labelIds && mail.labelIds[p.destination.value] != INBOX
    ensures var w := Run(Start(mail, kind, thread, p, subject), [DoPrepare(cap), DoExecute(cap, [], true)]);
            && w.row.state.Completed? && w.item.ItemExecuted?
            && w.mail == Relabelled(mail, thread, Asked(kind, p, mail.labelIds, mail.threads[thread]))
  {
    var w0 := Start(mail, kind, thread, p, subject);
    PreparedExactlyWhen(cap, w0.row, subject);
    var w1 := w0.(row := Prepare(cap, w0.row, subject).value);
    ExecuteDoes(cap, w1.row, w1.item, Client(mail, []));
    assert Step(w0, DoPrepare(cap)) == w1;
    hide Prepare, Execute;
    var w2 := Step(w1, DoExecute(cap, [], true));
    assert w2.mail == Relabelled(mail, thread, Asked(kind, p, mail.labelIds, mail.threads[thread]));
    RunTwo(w0, DoPrepare(cap), DoExecute(cap, [], true));
  }

  lemma RunTwo(w: World, c0: Command, c1: Command)
    ensures Run(w, [c0, c1]) == Step(Step(w, c0), c1)
  {
    hide Step;
    var cmds := [c0, c1];
    assert cmds[1..] == [c1] && |[c1][1..]| == 0;
    assert Run(Step(w, c0), [c1]) == Run(Step(Step(w, c0), c1), [c1][1..]);
  }

  /**
   After any run at all, whatever failed in it, an attempt whose calls all work leaves the thread
   with the effect the plan has on it as it was first found, or as the plan once applied left it.
   */
  lemma LastAttemptDoes(mail: Mail, kind: Kind, thread: string, p: Params, subject: string, cmds: seq<Command>,
                        cap: Capability, faults: seq<Fault>)
    requires OnThread(kind) && thread in mail.threads
    requires var w := Run(Start(mail, kind, thread, p, subject), cmds);
             && (w.row.state.Prepared? || w.row.state.Failed?)
             && Grants(cap, kind, w.row.params) && Willing(Client(w.mail, faults))
             && Resolvable(w.row.plan, mail.labelIds)
    ensures var w := Run(Start(mail, kind, thread, p, subject), cmds);
            var after := Step(w, DoExecute(cap, faults, true));
            var labels := mail.threads[thread];
            && (ThreadOf(after.mail, thread) == Some(Effect(w.row.plan, mail.labelIds, labels))
                || ThreadOf(after.mail, thread) == Some(Applied(w.row, mail.labelIds, labels)))
            && (Attainable(w.row.plan, mail.labelIds) ==> after.row.state.Completed? && Present(w.row, after.mail))
  {
    var w0 := Start(mail, kind, thread, p, subject);
    RunAppliesOnce(w0, mail, cmds);
    RunKeepsThread(w0, cmds);
    var w := Run(w0, cmds);
    hide Run;
    ExecuteDoes(cap, w.row, w.item, Client(w.mail, faults));
    EffectShows(w.row, w.mail);
    AppliedIsSettled(w.row, mail.labelIds, mail.threads[thread]);
    hide Execute, Present, Effect, Applied, Attainable, Already;
  }

  /** Nothing is left to do to a thread the plan was applied to. */
  lemma AppliedIsSettled(r: Row, labelIds: map<string, string>, labels: set<string>)
    requires Resolvable(r.plan, labelIds)
    ensures Effect(r.plan, labelIds, Applied(r, labelIds, labels)) == Applied(r, labelIds, labels)
    ensures !(r.plan.TrashPlan? && TRASH in labels) ==> Effect(r.plan, labelIds, labels) == Applied(r, labelIds, labels)
  {
  }

  // ---------------------------------------------------------------- sends and drafts

  /** A draft that is there and reads as it was approved goes out; one edited since stays, and the action fails. */
  lemma SendDoes(cap: Capability, r: Row, item: ItemState, c: Client)
    requires r.kind.SendDraft? && Ready(cap, r, c) && Live(c.mail, r.plan.draftId)
    ensures var res, id := Execute(cap, r, item, c), r.plan.draftId;
            && res.Returned?
            && if c.mail.drafts[id].messageId == r.plan.draftMessageId then
                 && res.row.state.Completed? && res.item.ItemExecuted?
                 && res.client.mail == c.mail.(drafts := c.mail.drafts[id := c.mail.drafts[id].(live := false)],
                                               sent := c.mail.sent + [Sent(id, r.plan.draftMessageId)])
                 && res.row.externalRef == Some(MessageRef(id))
               else res.row.state.Failed? && res.client.mail == c.mail
  {
    ExecuteProceeds(cap, r, item, c);
    hide Execute, Begun;
    BegunIs(r);
    var b := Begun(r);
    SendAttempt(cap, b, c);
    SendAttempt(cap, b, c.Next());
  }

  lemma SendAttempt(cap: Capability, r: Row, c: Client)
    requires r.kind.SendDraft? && r.plan.SendPlan? && Willing(c) && Live(c.mail, r.plan.draftId)
    ensures var res, id := Attempt(cap, r, c), r.plan.draftId;
            && res.Returned?
            && if c.mail.drafts[id].messageId == r.plan.draftMessageId then
                 && res.row.state.Completed? && res.item.ItemExecuted?
                 && res.client.mail == c.mail.(drafts := c.mail.drafts[id := c.mail.drafts[id].(live := false)],
                                               sent := c.mail.sent + [Sent(id, r.plan.draftMessageId)])
                 && res.row.externalRef == Some(MessageRef(id))
               else res.row.state.Failed? && res.client.mail == c.mail
  {
    hide HighestSequence;
  }

  /** A first attempt writes one draft on the thread and names it; a retry that lost its draft adopts the first one there is. */
  lemma DraftDoes(cap: Capability, r: Row, item: ItemState, c: Client)
    requires r.kind.DraftReply? && Ready(cap, r, c) && r.externalRef.None?
    ensures var res, found := Execute(cap, r, item, c), FirstDraft(c.mail.drafts, r.thread, 0);
            && res.Returned? && res.row.state.Completed? && res.item.ItemExecuted?
            && if r.attempts > 0 && found.Some? then
                 res.client.mail == c.mail && res.row.externalRef == Some(DraftRef(found.value))
               else
                 && res.client.mail == c.mail.(drafts := c.mail.drafts + [Draft(r.thread, |c.mail.drafts|, true)],
                                               created := c.mail.created + 1)
                 && res.row.externalRef == Some(DraftRef(|c.mail.drafts|))
  {
    ExecuteProceeds(cap, r, item, c);
    hide Execute, Begun;
    BegunIs(r);
    DraftAttempt(cap, Begun(r), c);
  }

  lemma DraftAttempt(cap: Capability, r: Row, c: Client)
    requires r.kind.DraftReply? && r.plan.DraftPlan? && Willing(c) && r.externalRef.None?
    ensures var res, found := Attempt(cap, r, c), FirstDraft(c.mail.drafts, r.thread, 0);
            && res.Returned? && res.row.state.Completed? && res.item.ItemExecuted?
            && if r.attempts > 1 && found.Some? then
                 res.client.mail == c.mail && res.row.externalRef == Some(DraftRef(found.value))
               else
                 && res.client.mail == c.mail.(drafts := c.mail.drafts + [Draft(r.thread, |c.mail.drafts|, true)],
                                               created := c.mail.created + 1)
                 && res.row.externalRef == Some(DraftRef(|c.mail.drafts|))
  {
    hide HighestSequence;
  }
}
