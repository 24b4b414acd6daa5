/** Drafts and sends: the two effects Gmail has no idempotency token for. */
module ActionDrafts {
  import opened Common
  import opened Mailbox
  import opened Actions
  import opened ActionRuns

  // ---------------------------------------------------------------- at most one draft

  /** A script in which Gmail never answers yes without acting, and no listing omits a draft. */
  predicate Honest(faults: seq<Fault>) {
    Ignored !in faults
  }

  ghost predicate RefLive(r: Row, mail: Mail) {
    r.externalRef.None? || (r.externalRef.value.DraftRef? && Live(mail, r.externalRef.value.id))
  }

  /** Between calls: what was created is the forgotten drafts of first attempts, and at most one more. */
  ghost predicate OneDraft(w: World, base: nat) {
    && w.row.kind.DraftReply?
    && RefLive(w.row, w.mail)
    && (w.row.attempts == 0 ==> w.row.externalRef.None? && w.mail.created == base + w.lost)
    && base + w.lost <= w.mail.created <= base + w.lost + 1
    && (w.mail.created == base + w.lost + 1 ==> HasDraft(w.mail, w.row.thread))
  }

  ghost predicate Grows(before: Mail, after: Mail) {
    && |before.drafts| <= |after.drafts|
    && forall i :: 0 <= i < |before.drafts| ==> after.drafts[i] == before.drafts[i]
  }

  /** What one attempt may do to the drafts of a thread. */
  ghost predicate CreatesOnce(r: Row, before: Mail, res: Result) {
    var after := res.client.mail;
    && (after == before
        || (after.created == before.created + 1 && Grows(before, after) && HasDraft(after, r.thread)
            && (r.attempts > 1 ==> !HasDraft(before, r.thread))))
    && (res.Returned? ==> RefLive(res.row, after) && res.row.kind == r.kind && res.row.thread == r.thread
                          && res.row.attempts == r.attempts)
  }

  lemma CreateReplyCreates(r: Row, c: Client)
    requires r.kind.DraftReply? && Honest(c.faults)
    ensures var p := CreateReply(r, c);
            && Honest(p.client.faults)
            && (p.client.mail == c.mail
                || (p.client.mail.created == c.mail.created + 1 && Grows(c.mail, p.client.mail)
                    && HasDraft(p.client.mail, r.thread)))
            && (p.Answer? ==> p.value.externalRef.Some? && p.value.externalRef.value.DraftRef?
                              && Live(p.client.mail, p.value.externalRef.value.id))
  {
    var p := CreateReply(r, c);
    if p.client.mail != c.mail {
      assert p.client.mail.drafts[|c.mail.drafts|] == Draft(r.thread, |c.mail.drafts|, true);
    }
  }

  lemma DraftPerform(r: Row, c: Client)
    requires r.kind.DraftReply? && r.externalRef.None? && Honest(c.faults)
    ensures var p := Perform(r, c);
            && (p.client.mail == c.mail
                || (p.client.mail.created == c.mail.created + 1 && Grows(c.mail, p.client.mail)
                    && HasDraft(p.client.mail, r.thread) && (r.attempts > 1 ==> !HasDraft(c.mail, r.thread))))
            && (p.Answer? ==> p.value.externalRef.Some? && p.value.externalRef.value.DraftRef?
                              && Live(p.client.mail, p.value.externalRef.value.id))
  {
    CreateReplyCreates(r, c);
    if r.attempts > 1 {
      CreateReplyCreates(r, c.Next());
    }
    hide CreateReply;
  }

  lemma DraftAttemptCreatesOnce(cap: Capability, r: Row, c: Client)
    requires r.kind.DraftReply? && r.externalRef.None? && Honest(c.faults)
    ensures CreatesOnce(r, c.mail, Attempt(cap, r, c))
  {
    DraftPerform(r, c);
    hide Perform;
  }

  lemma DraftExecuteCreatesOnce(cap: Capability, r: Row, item: ItemState, c: Client)
    requires r.kind.DraftReply? && RefLive(r, c.mail) && Honest(c.faults)
    requires r.attempts == 0 ==> r.externalRef.None?
    ensures var res := Execute(cap, r, item, c);
            && (|| res == Raised(c) || res == Returned(r, item, c)
                || CreatesOnce(r.(attempts := r.attempts + 1), c.mail, res))
  {
    var started := RecordEvent(r.(attempts := r.attempts + 1), ExecutionStarted, None);
    if started.externalRef.None? {
      DraftAttemptCreatesOnce(cap, started, c);
    }
    hide Attempt;
  }

  lemma GrowthKeepsDrafts(before: Mail, after: Mail, thread: string)
    requires Grows(before, after) || KeepsDraftsOf(before, after)
    requires HasDraft(before, thread)
    ensures HasDraft(after, thread)
  {
    var i :| 0 <= i < |before.drafts| && before.drafts[i].live && before.drafts[i].thread == thread;
    assert Live(before, i);
    assert Live(after, i) && after.drafts[i].thread == thread;
  }

  ghost predicate KeepsDraftsOf(before: Mail, after: Mail) {
    && KeepsDrafts(before, after)
    && |before.drafts| <= |after.drafts|
    && forall i :: 0 <= i < |before.drafts| ==> after.drafts[i].thread == before.drafts[i].thread
  }

  /** The draft assumptions at one step: honest answers, and nobody removes a draft. */
  ghost predicate DraftsStand(w: World, cmd: Command) {
    match cmd
    case DoPrepare(_) => true
    case DoExecute(_, faults, _) => Honest(faults)
    case DoVerify(faults, _) => Honest(faults)
    case Elsewhere(after) => KeepsDrafts(w.mail, after)
  }

  ghost predicate DraftsStandThroughout(w: World, cmds: seq<Command>)
    decreases |cmds|
  {
    cmds != [] ==> DraftsStand(w, cmds[0]) && DraftsStandThroughout(Step(w, cmds[0]), cmds[1..])
  }

  lemma VerifyKeepsDraft(r: Row, c: Client)
    requires r.kind.DraftReply?
    ensures var res := Verify(r, c);
            && res.client.mail == c.mail
            && (res.Returned? ==> res.row.externalRef == r.externalRef && res.row.kind == r.kind
                                  && res.row.thread == r.thread && res.row.attempts == r.attempts)
  {
  }

  lemma DraftStep(w: World, base: nat, cmd: Command)
    requires OneDraft(w, base) && DraftsStand(w, cmd)
    ensures OneDraft(Step(w, cmd), base)
  {
    match cmd
    case DoPrepare(_) =>
    case DoExecute(cap, faults, committed) =>
      var c := Client(w.mail, faults);
      DraftExecuteCreatesOnce(cap, w.row, w.item, c);
      hide Execute;
      var after := Execute(cap, w.row, w.item, c).client.mail;
      if HasDraft(w.mail, w.row.thread) && Grows(w.mail, after) {
        GrowthKeepsDrafts(w.mail, after, w.row.thread);
      }
    case DoVerify(faults, committed) =>
      VerifyKeepsDraft(w.row, Client(w.mail, faults));
      hide Verify;
    case Elsewhere(after) =>
      if Untouched(w.mail, after, w.row.thread) && HasDraft(w.mail, w.row.thread) {
        GrowthKeepsDrafts(w.mail, after, w.row.thread);
      }
  }

  lemma {:induction false} DraftRun(w: World, base: nat, cmds: seq<Command>)
    requires OneDraft(w, base) && DraftsStandThroughout(w, cmds)
    ensures OneDraft(Run(w, cmds), base)
    decreases |cmds|
  {
    if cmds != [] {
      DraftStep(w, base, cmds[0]);
      DraftRun(Step(w, cmds[0]), base, cmds[1..]);
    }
  }

  /**
   Over every run of failing and succeeding attempts a draft reply creates one draft or none,
   beyond those written by a first attempt whose record was rolled back: transactions lost later,
   or without a draft written, cost nothing.
   */
  lemma AtMostOneDraft(mail: Mail, thread: string, params: Params, subject: string, cmds: seq<Command>)
    requires var w0 := Start(mail, DraftReply, thread, params, subject); DraftsStandThroughout(w0, cmds)
    ensures var w := Run(Start(mail, DraftReply, thread, params, subject), cmds);
            && mail.created + w.lost <= w.mail.created <= mail.created + w.lost + 1
            && (w.row.attempts == 0 ==> w.mail.created == mail.created + w.lost)
  {
    DraftRun(Start(mail, DraftReply, thread, params, subject), mail.created, cmds);
  }

  const FULL := Capability(true, true, EXECUTORS, EXECUTORS, {}, true, true)

  lemma CleanAttemptCreates(r: Row, item: ItemState, mail: Mail)
    requires r.kind.DraftReply? && r.state.Prepared? && r.attempts == 0 && r.plan.DraftPlan?
    ensures Execute(FULL, r, item, Client(mail, [])).Returned?
    ensures Execute(FULL, r, item, Client(mail, [])).client.mail.created == mail.created + 1
  {
  }

  /**
   The allowance for a lost transaction is real, for every draft: an attempt whose record is
   rolled back after Gmail wrote the draft is followed by a first attempt that writes a second.
   */
  lemma LostRecordDoublesTheDraft(mail: Mail, thread: string, params: Params, subject: string)
    requires params.to != [] && params.body.Some?
    ensures var cmds := [DoPrepare(FULL), DoExecute(FULL, [], false), DoExecute(FULL, [], true)];
            Run(Start(mail, DraftReply, thread, params, subject), cmds).mail.created == mail.created + 2
  {
    var lose, keep := DoExecute(FULL, [], false), DoExecute(FULL, [], true);
    var w0 := Start(mail, DraftReply, thread, params, subject);
    var w1 := Step(w0, DoPrepare(FULL));
    CleanAttemptCreates(w1.row, w1.item, w1.mail);
    hide Execute;
    var w2 := Step(w1, lose);
    CleanAttemptCreates(w2.row, w2.item, w2.mail);
    var w3 := Step(w2, keep);
    hide Step;
    var cmds := [DoPrepare(FULL), lose, keep];
    assert cmds[1..] == [lose, keep] && [lose, keep][1..] == [keep] && [keep][1..] == [];
    assert Run(w2, [keep]) == w3;
    assert Run(w1, [lose, keep]) == Run(w2, [keep]);
  }

  // ---------------------------------------------------------------- at most one send

  /** Nothing sent, or exactly the approved draft with the approved text, once. */
  ghost predicate SentOnce(w: World, first: Mail) {
    && w.row.kind.SendDraft?
    && (w.mail.sent == first.sent
        || (w.row.plan.SendPlan?
            && w.mail.sent == first.sent + [Sent(w.row.plan.draftId, w.row.plan.draftMessageId)]
            && w.row.plan.draftId < |w.mail.drafts| && !w.mail.drafts[w.row.plan.draftId].live))
    && (w.row.state.Approved? ==> w.mail.sent == first.sent)
  }

  /** The mailbox is as it was, or the approved draft has gone out and is a draft no more. */
  ghost predicate SendsOnce(plan: Plan, before: Mail, after: Mail) {
    || after == before
    || (plan.SendPlan? && Live(before, plan.draftId)
        && after.sent == before.sent + [Sent(plan.draftId, plan.draftMessageId)]
        && plan.draftId < |after.drafts| && !after.drafts[plan.draftId].live)
  }

  lemma SendPerform(r: Row, c: Client)
    requires r.kind.SendDraft?
    ensures SendsOnce(r.plan, c.mail, Perform(r, c).client.mail)
  {
  }

  lemma SendReadBack(r: Row, c: Client)
    requires r.kind.SendDraft?
    ensures ReadBack(r, c).client.mail == c.mail
  {
  }

  lemma SendAttempt(cap: Capability, r: Row, c: Client)
    requires r.kind.SendDraft?
    ensures var res := Attempt(cap, r, c);
            && SendsOnce(r.plan, c.mail, res.client.mail)
            && (res.Returned? ==> res.row.plan == r.plan && res.row.kind == r.kind && !res.row.state.Approved?)
  {
    var p := Perform(r, c);
    SendPerform(r, c);
    if p.Answer? {
      var done := RecordEvent(r.(externalRef := p.value.externalRef, state := Executed),
                              ExecutionEvent(p.value), p.value.externalRef);
      SendReadBack(done, p.client);
    }
    hide Perform, ReadBack, SendsOnce;
  }

  lemma SendExecute(cap: Capability, r: Row, item: ItemState, c: Client)
    requires r.kind.SendDraft?
    ensures var res := Execute(cap, r, item, c);
            && SendsOnce(r.plan, c.mail, res.client.mail)
            && (res.Returned? ==> res.row.plan == r.plan && res.row.kind == r.kind && !res.row.state.Approved?)
            && (r.state.Approved? ==> res.client.mail == c.mail)
  {
    var started := RecordEvent(r.(attempts := r.attempts + 1), ExecutionStarted, None);
    SendAttempt(cap, started, c);
    SendReadBack(started, c);
    SendAttempt(cap, started, ReadBack(started, c).client);
    hide Attempt, ReadBack;
  }

  lemma SendStep(w: World, first: Mail, cmd: Command)
    requires SentOnce(w, first)
    ensures SentOnce(Step(w, cmd), first)
  {
    match cmd
    case DoExecute(cap, faults, committed) =>
      SendExecute(cap, w.row, w.item, Client(w.mail, faults));
      hide Execute;
    case DoVerify(_, _) => hide Perform;
    case DoPrepare(_) =>
    case Elsewhere(_) =>
  }

  /**
   Over every run, lost transactions and edited drafts included, a send happens at most once
   and what goes out is the draft and the message id that were approved.
   */
  lemma {:induction false} AtMostOneSend(w: World, first: Mail, cmds: seq<Command>)
    requires SentOnce(w, first)
    ensures SentOnce(Run(w, cmds), first)
    decreases |cmds|
  {
    if cmds != [] {
      SendStep(w, first, cmds[0]);
      AtMostOneSend(Step(w, cmds[0]), first, cmds[1..]);
    }
  }
}
