/** What a completed draft or send amounts to, where the code verified it. */
module ActionOutcomes {
  import opened Common
  import opened Mailbox
  import opened Actions
  import opened ActionRuns
  import opened ActionDrafts
  import opened ActionSafety

  /** The drafts somebody else removed at this step. */
  ghost function TakenAt(w: World, cmd: Command): set<nat> {
    if cmd.Elsewhere? && Untouched(w.mail, cmd.after, w.row.thread)
    then set i: nat | i < |w.mail.drafts| && Live(w.mail, i) && !Live(cmd.after, i)
    else {}
  }

  ghost function Taken(w: World, cmds: seq<Command>): set<nat>
    decreases |cmds|
  {
    if cmds == [] then {} else TakenAt(w, cmds[0]) + Taken(Step(w, cmds[0]), cmds[1..])
  }

  // ---------------------------------------------------------------- a completed send

  /** The action is to send this draft, and completed only once the draft was gone. */
  ghost predicate Sends(w: World, id: nat) {
    && w.row.kind.SendDraft? && w.row.params.draftId == Some(id) && id < |w.mail.drafts|
    && (w.row.plan.SendPlan? ==> w.row.plan.draftId == id)
    && (!w.row.state.Approved? ==> w.row.plan.SendPlan?)
    && (w.row.state.Completed? ==> !Live(w.mail, id))
  }

  ghost predicate WentOut(w: World, first: Mail, id: nat) {
    w.row.plan.SendPlan? && w.mail.sent == first.sent + [Sent(id, w.row.plan.draftMessageId)]
  }

  /** While nobody else took the draft it is there or went out; otherwise it is gone and did not. */
  ghost predicate Fate(w: World, first: Mail, id: nat, kept: bool) {
    && (w.row.state.Approved? ==> w.mail.sent == first.sent)
    && if kept then (Live(w.mail, id) && w.mail.sent == first.sent) || (!Live(w.mail, id) && WentOut(w, first, id))
       else !Live(w.mail, id) && w.mail.sent == first.sent
  }

  lemma SendAttemptOutcome(cap: Capability, r: Row, c: Client)
    requires r.kind.SendDraft? && r.plan.SendPlan?
    ensures var res := Attempt(cap, r, c);
            res.Returned? ==>
              && res.row.params == r.params
              && (cap.requireVerification && res.row.state.Completed? && !r.state.Completed? ==>
                    !Live(res.client.mail, r.plan.draftId))
  {
    hide Mailbox.SendDraft;
  }

  lemma SendOutcome(cap: Capability, r: Row, item: ItemState, c: Client)
    requires r.kind.SendDraft? && r.plan.SendPlan?
    ensures var res := Execute(cap, r, item, c);
            res.Returned? ==>
              && res.row.params == r.params
              && (cap.requireVerification && res.row.state.Completed? && !r.state.Completed? ==>
                    !Live(res.client.mail, r.plan.draftId))
  {
    var started := RecordEvent(r.(attempts := r.attempts + 1), ExecutionStarted, None);
    SendAttemptOutcome(cap, started, c);
    SendAttemptOutcome(cap, started, ReadBack(started, c).client);
    SendReadBack(started, c);
    hide Attempt;
  }

  lemma VerifyOutcome(r: Row, c: Client)
    requires r.kind.SendDraft? && r.plan.SendPlan?
    ensures var res := Verify(r, c);
            && res.client.mail == c.mail
            && (res.Returned? ==>
                  && res.row.plan == r.plan && res.row.kind == r.kind && res.row.params == r.params
                  && !res.row.state.Approved?
                  && (res.row.state.Completed? ==> !Live(c.mail, r.plan.draftId)))
  {
  }

  lemma SendFateStep(w: World, first: Mail, id: nat, kept: bool, cmd: Command)
    requires Sends(w, id) && Fate(w, first, id, kept) && Verifies(cmd)
    ensures Sends(Step(w, cmd), id) && Fate(Step(w, cmd), first, id, kept && id !in TakenAt(w, cmd))
  {
    match cmd
    case DoPrepare(_) =>
    case DoExecute(cap, faults, committed) =>
      var c := Client(w.mail, faults);
      SendExecute(cap, w.row, w.item, c);
      if w.row.plan.SendPlan? {
        SendOutcome(cap, w.row, w.item, c);
      }
      SendKeepsDrafts(cap, w.row, w.item, c);
      hide Execute;
    case DoVerify(faults, committed) =>
      if w.row.plan.SendPlan? {
        VerifyOutcome(w.row, Client(w.mail, faults));
        hide Verify;
      }
    case Elsewhere(after) =>
  }

  lemma SendKeepsDrafts(cap: Capability, r: Row, item: ItemState, c: Client)
    requires r.kind.SendDraft?
    ensures |Execute(cap, r, item, c).client.mail.drafts| == |c.mail.drafts|
  {
    var started := RecordEvent(r.(attempts := r.attempts + 1), ExecutionStarted, None);
    SendAttemptKeepsDrafts(cap, started, c);
    SendAttemptKeepsDrafts(cap, started, ReadBack(started, c).client);
    SendReadBack(started, c);
    hide Attempt;
  }

  lemma SendAttemptKeepsDrafts(cap: Capability, r: Row, c: Client)
    requires r.kind.SendDraft?
    ensures |Attempt(cap, r, c).client.mail.drafts| == |c.mail.drafts|
  {
  }

  lemma {:induction false} SendFate(w: World, first: Mail, id: nat, kept: bool, cmds: seq<Command>)
    requires Sends(w, id) && Fate(w, first, id, kept) && forall cmd :: cmd in cmds ==> Verifies(cmd)
    ensures Sends(Run(w, cmds), id) && Fate(Run(w, cmds), first, id, kept && id !in Taken(w, cmds))
    decreases |cmds|
  {
    hide Fate, Sends, TakenAt;
    if cmds != [] {
      SendFateStep(w, first, id, kept, cmds[0]);
      SendFate(Step(w, cmds[0]), first, id, kept && id !in TakenAt(w, cmds[0]), cmds[1..]);
    }
  }

  /**
   Over every run of verified attempts, a send that is completed went out exactly when the draft
   was there to begin with and nobody else removed it: what is verified is that the draft is gone.
   */
  lemma CompletedSendWentOutExactlyWhen(mail: Mail, thread: string, params: Params, subject: string,
                                          cmds: seq<Command>, id: nat)
    requires params.draftId == Some(id) && id < |mail.drafts|
    requires forall cmd :: cmd in cmds ==> Verifies(cmd)
    ensures var w0 := Start(mail, Kind.SendDraft, thread, params, subject);
            var w := Run(w0, cmds);
            && (w.mail.sent == mail.sent || WentOut(w, mail, id))
            && (w.row.state.Completed? ==> (WentOut(w, mail, id) <==> Live(mail, id) && id !in Taken(w0, cmds)))
  {
    var w0 := Start(mail, Kind.SendDraft, thread, params, subject);
    SendFate(w0, mail, id, Live(mail, id), cmds);
    hide Run;
  }

  // ---------------------------------------------------------------- a completed draft

  /** Completed, it names a draft: one that is there, or that somebody else removed since. */
  ghost predicate Names(w: World, taken: set<nat>) {
    && w.row.kind.DraftReply?
    && (w.row.state.Completed? ==>
          && w.row.externalRef.Some? && w.row.externalRef.value.DraftRef?
          && w.row.externalRef.value.id < |w.mail.drafts|
          && (Live(w.mail, w.row.externalRef.value.id) || w.row.externalRef.value.id in taken))
  }

  /** Read back as live where it completed. */
  ghost predicate ReadLive(res: Result)
    requires res.Returned?
  {
    && res.row.externalRef.Some? && res.row.externalRef.value.DraftRef?
    && Live(res.client.mail, res.row.externalRef.value.id)
  }

  ghost predicate KeepsOrGrows(before: Mail, after: Mail) {
    after == before || Grows(before, after)
  }

  lemma ReplyGrows(r: Row, c: Client)
    requires r.kind.DraftReply?
    ensures KeepsOrGrows(c.mail, CreateReply(r, c).client.mail)
  {
  }

  lemma PerformGrows(r: Row, c: Client)
    requires r.kind.DraftReply?
    ensures KeepsOrGrows(c.mail, Perform(r, c).client.mail)
  {
    ReplyGrows(r, c);
    ReplyGrows(r, c.Next());
    hide CreateReply, KeepsOrGrows;
  }

  lemma DraftReadBack(r: Row, c: Client)
    requires r.kind.DraftReply?
    ensures ReadBack(r, c).client.mail == c.mail
    ensures ReadBack(r, c).Answer? && ReadBack(r, c).value ==>
              r.externalRef.Some? && r.externalRef.value.DraftRef? && Live(c.mail, r.externalRef.value.id)
  {
  }

  lemma DraftAttemptOutcome(cap: Capability, r: Row, c: Client)
    requires r.kind.DraftReply?
    ensures var res := Attempt(cap, r, c);
            && KeepsOrGrows(c.mail, res.client.mail)
            && (res.Returned? ==>
                  && res.row.kind == r.kind
                  && (cap.requireVerification && res.row.state.Completed? && !r.state.Completed? ==> ReadLive(res)))
  {
    PerformGrows(r, c);
    var p := Perform(r, c);
    if p.Answer? {
      var done := RecordEvent(r.(externalRef := p.value.externalRef, state := Executed),
                              ExecutionEvent(p.value), p.value.externalRef);
      DraftReadBack(done, p.client);
    }
    hide Perform, ReadBack, KeepsOrGrows;
  }

  /** A verified draft action completes only on reading a draft that is there. */
  lemma DraftOutcome(cap: Capability, r: Row, item: ItemState, c: Client)
    requires r.kind.DraftReply?
    ensures var res := Execute(cap, r, item, c);
            && KeepsOrGrows(c.mail, res.client.mail)
            && (res.Returned? ==>
                  && res.row.kind == r.kind
                  && (r.state.Completed? ==> res.row == r)
                  && (cap.requireVerification && res.row.state.Completed? && !r.state.Completed? ==> ReadLive(res)))
  {
    var started := RecordEvent(r.(attempts := r.attempts + 1), ExecutionStarted, None);
    DraftAttemptOutcome(cap, started, c);
    DraftAttemptOutcome(cap, started, ReadBack(started, c).client);
    DraftReadBack(started, c);
    hide Attempt, ReadBack, Grows;
  }

  lemma DraftVerifyOutcome(r: Row, c: Client)
    requires r.kind.DraftReply?
    ensures var res := Verify(r, c);
            && res.client.mail == c.mail
            && (res.Returned? ==> res.row.kind == r.kind && (res.row.state.Completed? ==> ReadLive(res)))
  {
  }

  lemma DraftNamesStep(w: World, taken: set<nat>, cmd: Command)
    requires Names(w, taken) && Verifies(cmd)
    ensures Names(Step(w, cmd), taken + TakenAt(w, cmd))
  {
    match cmd
    case DoPrepare(_) =>
    case DoExecute(cap, faults, committed) =>
      DraftOutcome(cap, w.row, w.item, Client(w.mail, faults));
      hide Execute;
    case DoVerify(faults, committed) =>
      DraftVerifyOutcome(w.row, Client(w.mail, faults));
      hide Verify;
    case Elsewhere(after) =>
  }

  lemma {:induction false} DraftNames(w: World, taken: set<nat>, cmds: seq<Command>)
    requires Names(w, taken) && forall cmd :: cmd in cmds ==> Verifies(cmd)
    ensures Names(Run(w, cmds), taken + Taken(w, cmds))
    decreases |cmds|
  {
    hide Names, TakenAt;
    if cmds != [] {
      DraftNamesStep(w, taken, cmds[0]);
      DraftNames(Step(w, cmds[0]), taken + TakenAt(w, cmds[0]), cmds[1..]);
      assert taken + TakenAt(w, cmds[0]) + Taken(Step(w, cmds[0]), cmds[1..]) == taken + Taken(w, cmds);
    } else {
      assert taken + Taken(w, cmds) == taken;
    }
  }

  /** Over every run of verified attempts, a completed draft names one that is there unless somebody else removed it. */
  lemma CompletedDraftIsThere(mail: Mail, thread: string, params: Params, subject: string, cmds: seq<Command>)
    requires forall cmd :: cmd in cmds ==> Verifies(cmd)
    ensures var w0 := Start(mail, DraftReply, thread, params, subject);
            var w := Run(w0, cmds);
            w.row.state.Completed? ==>
              && w.row.externalRef.Some? && w.row.externalRef.value.DraftRef?
              && (Live(w.mail, w.row.externalRef.value.id) || w.row.externalRef.value.id in Taken(w0, cmds))
  {
    var w0 := Start(mail, DraftReply, thread, params, subject);
    DraftNames(w0, {}, cmds);
    assert {} + Taken(w0, cmds) == Taken(w0, cmds);
    hide Run;
  }

  // ---------------------------------------------------------------- neither need be its own doing

  lemma RunMore(w: World, cmd: Command, cmds: seq<Command>)
    ensures Run(w, [cmd] + cmds) == Run(Step(w, cmd), cmds)
  {
    assert ([cmd] + cmds)[1..] == cmds;
  }

  lemma RunFour(w: World, c0: Command, c1: Command, c2: Command, c3: Command)
    ensures Run(w, [c0, c1, c2, c3]) == Step(Step(Step(Step(w, c0), c1), c2), c3)
  {
    hide Step;
    var w1 := Step(w, c0);
    var w2 := Step(w1, c1);
    assert [c0, c1, c2, c3] == [c0] + ([c1] + ([c2] + ([c3] + [])));
    RunMore(w, c0, [c1] + ([c2] + ([c3] + [])));
    RunMore(w1, c1, [c2] + ([c3] + []));
    RunMore(w2, c2, [c3] + []);
    RunMore(Step(w2, c2), c3, []);
  }

  function Removed(mail: Mail, id: nat): Mail
    requires id < |mail.drafts|
  {
    mail.(drafts := mail.drafts[id := mail.drafts[id].(live := false)])
  }

  /** A send that fails, and whose draft somebody then deletes, completes on the retry with nothing sent. */
  lemma CompletedSendMayNotHaveGoneOut(mail: Mail, thread: string, params: Params, subject: string, id: nat)
    requires params.draftId == Some(id) && params.draftMessageId.Some? && Live(mail, id)
    ensures var cmds := [DoPrepare(FULL), DoExecute(FULL, [FailsBefore], true),
                         Elsewhere(Removed(mail, id)), DoExecute(FULL, [], true)];
            var w := Run(Start(mail, Kind.SendDraft, thread, params, subject), cmds);
            w.row.state.Completed? && w.mail.sent == mail.sent
  {
    var w0 := Start(mail, Kind.SendDraft, thread, params, subject);
    RunFour(w0, DoPrepare(FULL), DoExecute(FULL, [FailsBefore], true),
            Elsewhere(Removed(mail, id)), DoExecute(FULL, [], true));
    hide Run;
    var w1 := Step(w0, DoPrepare(FULL));
    var w2 := Step(w1, DoExecute(FULL, [FailsBefore], true));
    assert w2.mail == mail && w2.row.state.Failed? && w2.row.attempts == 1;
    assert w2.row.plan == SendPlan(id, params.draftMessageId.value);
    var w3 := Step(w2, Elsewhere(Removed(mail, id)));
    assert w3 == w2.(mail := Removed(mail, id));
  }

  function Added(mail: Mail, thread: string, messageId: nat): Mail {
    mail.(drafts := mail.drafts + [Draft(thread, messageId, true)])
  }

  lemma LaterDraftOnly(drafts: seq<Draft>, thread: string, from: nat, d: Draft)
    requires from <= |drafts| && d.live && d.thread == thread
    requires forall i :: 0 <= i < |drafts| ==> !(drafts[i].live && drafts[i].thread == thread)
    ensures FirstDraft(drafts + [d], thread, from) == Some(|drafts|)
    decreases |drafts| - from
  {
    if from < |drafts| {
      LaterDraftOnly(drafts, thread, from + 1, d);
    }
  }

  /** A draft that fails, and beside which somebody writes another, completes on the retry by adopting that one. */
  lemma CompletedDraftMayBeAnothers(mail: Mail, thread: string, params: Params, subject: string, messageId: nat)
    requires params.to != [] && params.body.Some? && !HasDraft(mail, thread)
    ensures var cmds := [DoPrepare(FULL), DoExecute(FULL, [FailsBefore], true),
                         Elsewhere(Added(mail, thread, messageId)), DoExecute(FULL, [], true)];
            var w := Run(Start(mail, DraftReply, thread, params, subject), cmds);
            w.row.state.Completed? && w.row.externalRef == Some(DraftRef(|mail.drafts|)) && w.mail.created == mail.created
  {
    var w0 := Start(mail, DraftReply, thread, params, subject);
    RunFour(w0, DoPrepare(FULL), DoExecute(FULL, [FailsBefore], true),
            Elsewhere(Added(mail, thread, messageId)), DoExecute(FULL, [], true));
    hide Run;
    var w1 := Step(w0, DoPrepare(FULL));
    var w2 := Step(w1, DoExecute(FULL, [FailsBefore], true));
    assert w2.mail == mail && w2.row.state.Failed? && w2.row.attempts == 1 && w2.row.externalRef.None?;
    var w3 := Step(w2, Elsewhere(Added(mail, thread, messageId)));
    assert w3 == w2.(mail := Added(mail, thread, messageId));
    LaterDraftOnly(mail.drafts, thread, 0, Draft(thread, messageId, true));
  }
}
