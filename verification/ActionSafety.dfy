/** What a run of one action may have done to the mailbox, however its calls failed. */
module ActionSafety {
  import opened Common
  import opened Mailbox
  import opened Actions
  import opened ActionRuns

  // ---------------------------------------------------------------- one thread, one effect

  predicate OnThread(kind: Kind) {
    kind.Label? || kind.Archive? || kind.Move? || kind.Trash? || kind.Untrash?
  }

  function Ids(names: seq<string>, labelIds: map<string, string>): set<string> {
    set name | name in names && name in labelIds :: labelIds[name]
  }

  /** What one application of the plan makes of a thread's labels. */
  function Applied(r: Row, labelIds: map<string, string>, labels: set<string>): set<string> {
    match r.plan
    case LabelPlan(add, remove) => Modified(labels, Ids(add, labelIds), Ids(remove, labelIds))
    case ArchivePlan => Modified(labels, {}, {INBOX})
    case MovePlan(destination) => Modified(labels, Ids([destination], labelIds), {INBOX})
    case TrashPlan => Trashed(labels)
    case UntrashPlan => Untrashed(labels)
    case _ => labels
  }

  /** The effect the plan promises, as Gmail's own labels would show it. */
  predicate Present(r: Row, mail: Mail) {
    && r.thread in mail.threads
    && var labels := mail.threads[r.thread];
       match r.plan
       case LabelPlan(add, remove) =>
         Ids(add, mail.labelIds) <= labels && Ids(remove, mail.labelIds) !! labels
       case ArchivePlan => INBOX !in labels
       case MovePlan(destination) =>
         destination in mail.labelIds && mail.labelIds[destination] in labels && INBOX !in labels
       case TrashPlan => TRASH in labels
       case UntrashPlan => TRASH !in labels
       case _ => false
  }

  predicate PlanFits(kind: Kind, plan: Plan) {
    match kind
    case Label => plan.LabelPlan?
    case Archive => plan.ArchivePlan?
    case Move => plan.MovePlan?
    case Trash => plan.TrashPlan?
    case Untrash => plan.UntrashPlan?
    case DraftReply => plan.DraftPlan?
    case SendDraft => plan.SendPlan?
    case MondayCreateTask => false
  }

  lemma AppliedTwiceIsAppliedOnce(r: Row, labelIds: map<string, string>, labels: set<string>)
    ensures Applied(r, labelIds, Applied(r, labelIds, labels)) == Applied(r, labelIds, labels)
  {
  }

  /** The mailbox is as it was, or this one thread has the plan applied to it. */
  ghost predicate AtMostApplied(r: Row, before: Mail, after: Mail) {
    || after == before
    || (r.thread in before.threads
        && after == before.(threads := before.threads[r.thread := Applied(r, before.labelIds, before.threads[r.thread])]))
  }

  lemma {:induction false} ResolveAllReads(c: Client, names: seq<string>)
    ensures ResolveAll(c, names).client.mail == c.mail
    ensures ResolveAll(c, names).Answer? ==>
              && (forall name :: name in names ==> name in c.mail.labelIds)
              && Elements(ResolveAll(c, names).value) == Ids(names, c.mail.labelIds)
    decreases |names|
  {
    if names != [] {
      var first := ResolveLabelId(c, names[0]);
      if first.Answer? && first.value.Some? {
        ResolveAllReads(first.client, names[1..]);
        var rest := ResolveAll(first.client, names[1..]);
        if rest.Answer? {
          assert names == [names[0]] + names[1..];
          assert Ids(names, c.mail.labelIds) == {first.value.value} + Ids(names[1..], c.mail.labelIds);
          assert Elements([first.value.value] + rest.value) == {first.value.value} + Elements(rest.value);
        }
      }
    }
  }

  lemma ResolveLabelsReads(c: Client, plan: Plan)
    requires plan.LabelPlan?
    ensures ResolveLabels(c, plan).client.mail == c.mail
    ensures ResolveLabels(c, plan).Answer? ==>
              && Elements(ResolveLabels(c, plan).value.0) == Ids(plan.add, c.mail.labelIds)
              && Elements(ResolveLabels(c, plan).value.1) == Ids(plan.remove, c.mail.labelIds)
  {
    ResolveAllReads(c, plan.add);
    var added := ResolveAll(c, plan.add);
    if added.Answer? {
      ResolveAllReads(added.client, plan.remove);
    }
  }

  /** Reading back never writes, and says yes to a thread action only when its effect is there. */
  lemma ReadBackReads(r: Row, c: Client)
    requires PlanFits(r.kind, r.plan)
    ensures ReadBack(r, c).client.mail == c.mail
    ensures OnThread(r.kind) && ReadBack(r, c).Answer? && ReadBack(r, c).value ==> Present(r, c.mail)
  {
    if r.kind.Label? {
      ResolveLabelsReads(c, r.plan);
    }
  }

  lemma WriteThreadWrites(c: Client, thread: string, written: set<string>)
    ensures var after := WriteThread(c, thread, written).client.mail;
            after == c.mail
            || (thread in c.mail.threads && after == c.mail.(threads := c.mail.threads[thread := written]))
  {
  }

  lemma {:induction false} PerformAppliesAtMostOnce(r: Row, c: Client)
    requires OnThread(r.kind) && PlanFits(r.kind, r.plan)
    ensures AtMostApplied(r, c.mail, Perform(r, c).client.mail)
  {
    match r.kind
    case Label =>
      ResolveLabelsReads(c, r.plan);
      var ids := ResolveLabels(c, r.plan);
      if ids.Answer? {
        var c1 := ids.client;
        var labels := if r.thread in c1.mail.threads then c1.mail.threads[r.thread] else {};
        WriteThreadWrites(c1, r.thread, Modified(labels, Elements(ids.value.0), Elements(ids.value.1)));
      }
    case Move =>
      var d := ResolveDestination(c, r.plan);
      if d.Answer? {
        assert Ids([r.plan.destination], c.mail.labelIds) == {d.value};
      }
    case _ =>
  }

  lemma AttemptAppliesAtMostOnce(cap: Capability, r: Row, c: Client)
    requires OnThread(r.kind) && PlanFits(r.kind, r.plan)
    ensures var res := Attempt(cap, r, c);
            && AtMostApplied(r, c.mail, res.client.mail)
            && (res.Returned? ==> SameIntent(r, res.row))
            && (res.Returned? && res.row.state.Completed? && cap.requireVerification ==>
                  Present(res.row, res.client.mail))
  {
    PerformAppliesAtMostOnce(r, c);
    var p := Perform(r, c);
    hide Perform;
    if p.Answer? && cap.requireVerification {
      var done := RecordEvent(r.(externalRef := p.value.externalRef, state := Executed),
                              ExecutionEvent(p.value), p.value.externalRef);
      ReadBackReads(done, p.client);
      hide ReadBack;
    }
  }

  predicate SameIntent(before: Row, after: Row) {
    after.kind == before.kind && after.thread == before.thread && after.params == before.params
    && after.plan == before.plan
  }

  /**
   One execute call on any mailbox at all: it leaves the mailbox as it was or with the plan
   applied once to this thread, and if it completes the action under required verification
   the effect is there, whatever Gmail answered to the write itself.
   */
  lemma ExecuteAppliesAtMostOnce(cap: Capability, r: Row, item: ItemState, c: Client)
    requires OnThread(r.kind) && PlanFits(r.kind, r.plan)
    ensures var res := Execute(cap, r, item, c);
            && AtMostApplied(r, c.mail, res.client.mail)
            && (res.Returned? ==> SameIntent(r, res.row))
            && (res.Returned? && res.row.state.Completed? && !r.state.Completed? && cap.requireVerification ==>
                  Present(res.row, res.client.mail))
  {
    var started := RecordEvent(r.(attempts := r.attempts + 1), ExecutionStarted, None);
    ReadBackReads(started, c);
    AttemptAppliesAtMostOnce(cap, started, c);
    AttemptAppliesAtMostOnce(cap, started, ReadBack(started, c).client);
    hide Attempt, ReadBack;
  }

  lemma VerifyAppliesNothing(r: Row, c: Client)
    requires PlanFits(r.kind, r.plan)
    ensures var res := Verify(r, c);
            && res.client.mail == c.mail
            && (res.Returned? ==> SameIntent(r, res.row) && res.row.externalRef == r.externalRef)
            && (res.Returned? && res.row.state.Completed? && OnThread(r.kind) ==> Present(res.row, c.mail))
  {
    ReadBackReads(r, c);
    hide ReadBack;
  }

  /** Between any two calls of a run that began on `first`: the thread as it was, or as one application makes it. */
  ghost predicate AppliedOnce(w: World, first: Mail) {
    && OnThread(w.row.kind)
    && first.labelIds == w.mail.labelIds
    && (if w.row.state.Approved? then ThreadOf(w.mail, w.row.thread) == ThreadOf(first, w.row.thread)
        else
          && PlanFits(w.row.kind, w.row.plan)
          && (|| ThreadOf(w.mail, w.row.thread) == ThreadOf(first, w.row.thread)
              || (w.row.thread in first.threads && w.row.thread in w.mail.threads
                  && w.mail.threads[w.row.thread] == Applied(w.row, first.labelIds, first.threads[w.row.thread]))))
  }

  /** A completed action's effect is in the mailbox. */
  ghost predicate DoneMeansPresent(w: World) {
    w.row.state.Completed? ==> Present(w.row, w.mail)
  }

  predicate Verifies(cmd: Command) {
    cmd.DoExecute? ==> cmd.cap.requireVerification
  }

  lemma CommitAppliesOnce(w: World, first: Mail, res: Result, committed: bool)
    requires AppliedOnce(w, first) && !w.row.state.Approved?
    requires AtMostApplied(w.row, w.mail, res.client.mail)
    requires res.Returned? ==> SameIntent(w.row, res.row) && !res.row.state.Approved?
    ensures AppliedOnce(Commit(w, res, committed), first)
  {
    if w.row.thread in first.threads {
      AppliedTwiceIsAppliedOnce(w.row, first.labelIds, first.threads[w.row.thread]);
    }
  }

  lemma CommitStaysDone(w: World, res: Result, committed: bool)
    requires DoneMeansPresent(w)
    requires w.row.state.Completed? ==> res.client.mail == w.mail
    requires res.Returned? && res.row.state.Completed? ==> Present(res.row, res.client.mail)
    ensures DoneMeansPresent(Commit(w, res, committed))
  {
  }

  lemma ExecuteLeavesApproval(cap: Capability, r: Row, item: ItemState, c: Client)
    ensures var res := Execute(cap, r, item, c);
            && (res.Returned? ==> !res.row.state.Approved?)
            && (r.state.Approved? ==> res == Raised(c))
            && (r.state.Completed? ==> res in {Raised(c), Returned(r, item, c)})
  {
    hide Perform, ReadBack;
  }

  lemma StepAppliesOnce(w: World, first: Mail, cmd: Command)
    requires AppliedOnce(w, first)
    ensures AppliedOnce(Step(w, cmd), first)
  {
    match cmd
    case DoPrepare(_) =>
    case DoExecute(cap, faults, committed) =>
      var c := Client(w.mail, faults);
      ExecuteLeavesApproval(cap, w.row, w.item, c);
      if !w.row.state.Approved? {
        ExecuteAppliesAtMostOnce(cap, w.row, w.item, c);
        hide Execute;
        CommitAppliesOnce(w, first, Execute(cap, w.row, w.item, c), committed);
      }
    case DoVerify(faults, committed) =>
      if !w.row.state.Approved? {
        var c := Client(w.mail, faults);
        VerifyAppliesNothing(w.row, c);
        hide ReadBack;
        CommitAppliesOnce(w, first, Verify(w.row, c), committed);
      }
    case Elsewhere(after) =>
  }

  lemma StepStaysDone(w: World, first: Mail, cmd: Command)
    requires AppliedOnce(w, first) && DoneMeansPresent(w) && Verifies(cmd)
    ensures DoneMeansPresent(Step(w, cmd))
  {
    match cmd
    case DoPrepare(_) =>
    case DoExecute(cap, faults, committed) =>
      var c := Client(w.mail, faults);
      ExecuteLeavesApproval(cap, w.row, w.item, c);
      if !w.row.state.Approved? {
        ExecuteAppliesAtMostOnce(cap, w.row, w.item, c);
        hide Execute;
        CommitStaysDone(w, Execute(cap, w.row, w.item, c), committed);
      }
    case DoVerify(faults, committed) =>
      if !w.row.state.Approved? {
        var c := Client(w.mail, faults);
        VerifyAppliesNothing(w.row, c);
        hide ReadBack;
        CommitStaysDone(w, Verify(w.row, c), committed);
      }
    case Elsewhere(after) =>
  }

  lemma {:induction false} RunAppliesOnce(w: World, first: Mail, cmds: seq<Command>)
    requires AppliedOnce(w, first)
    ensures AppliedOnce(Run(w, cmds), first)
    decreases |cmds|
  {
    if cmds != [] {
      StepAppliesOnce(w, first, cmds[0]);
      RunAppliesOnce(Step(w, cmds[0]), first, cmds[1..]);
    }
  }

  lemma {:induction false} RunStaysDone(w: World, first: Mail, cmds: seq<Command>)
    requires AppliedOnce(w, first) && DoneMeansPresent(w) && forall cmd :: cmd in cmds ==> Verifies(cmd)
    ensures DoneMeansPresent(Run(w, cmds))
    decreases |cmds|
  {
    if cmds != [] {
      StepAppliesOnce(w, first, cmds[0]);
      StepStaysDone(w, first, cmds[0]);
      RunStaysDone(Step(w, cmds[0]), first, cmds[1..]);
    }
  }

  /**
   Over every run, with every call free to fail before or after taking effect or to be
   silently ignored, and with transactions lost after Gmail acted: a label, archive, move,
   trash or untrash leaves its thread as it was or as one application makes it. Where every
   execute required verification, a completed action's effect is there as well.
   */
  lemma OneEffectPerThread(mail: Mail, kind: Kind, thread: string, params: Params, subject: string, cmds: seq<Command>)
    requires OnThread(kind)
    ensures var w := Run(Start(mail, kind, thread, params, subject), cmds);
            && (|| ThreadOf(w.mail, thread) == ThreadOf(mail, thread)
                || (thread in mail.threads
                    && ThreadOf(w.mail, thread) == Some(Applied(w.row, mail.labelIds, mail.threads[thread]))))
            && ((forall cmd :: cmd in cmds ==> Verifies(cmd)) && w.row.state.Completed? ==> Present(w.row, w.mail))
  {
    var w0 := Start(mail, kind, thread, params, subject);
    RunAppliesOnce(w0, mail, cmds);
    RunKeepsThread(w0, cmds);
    if forall cmd :: cmd in cmds ==> Verifies(cmd) {
      RunStaysDone(w0, mail, cmds);
    }
  }

  lemma StepKeepsThread(w: World, cmd: Command)
    ensures Step(w, cmd).row.thread == w.row.thread && Step(w, cmd).row.kind == w.row.kind
  {
    hide Perform, ReadBack;
  }

  lemma {:induction false} RunKeepsThread(w: World, cmds: seq<Command>)
    ensures Run(w, cmds).row.thread == w.row.thread && Run(w, cmds).row.kind == w.row.kind
    decreases |cmds|
  {
    if cmds != [] {
      StepKeepsThread(w, cmds[0]);
      RunKeepsThread(Step(w, cmds[0]), cmds[1..]);
    }
  }

  /**
   Nothing reaches Gmail that is not granted at the moment of the call: an execute that changes
   the mailbox, or the action, is of a prepared kind the capability may still take and carry
   out, with writes switched on.
   */
  lemma OnlyGrantedActionsRun(cap: Capability, r: Row, item: ItemState, c: Client)
    ensures var res := Execute(cap, r, item, c);
            res.client.mail != c.mail || (res.Returned? && res.row != r) ==>
              && cap.preparesActions && cap.executesApproved && cap.writesEnabled
              && r.kind in cap.permitted && r.kind in cap.executable && r.kind in EXECUTORS
              && (r.kind.Move? ==> r.params.destination.Some? && r.params.destination.value in cap.destinations)
              && !r.state.Approved? && !r.state.Completed?
  {
    hide Proceed;
  }
}
