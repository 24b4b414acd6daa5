/**
 The rows an action lives in, updated in place, and the methods that update them. Each
 method is proved to leave exactly what `Actions` says of the same call; a raised call is a
 transaction rolled back, which restores the rows and not the mailbox.
 */
module ActionRows {
  import opened Common
  import opened Mailbox
  import opened Actions

  class GmailClient {
    var line: Client

    constructor (mail: Mail, faults: seq<Fault>)
      ensures line == Client(mail, faults)
    {
      line := Client(mail, faults);
    }
  }

  class ReviewItem {
    const subject: string
    var state: ItemState

    constructor (subject: string)
      ensures this.subject == subject && state == ItemApproved
    {
      this.subject := subject;
      state := ItemApproved;
    }
  }

  class ReviewAction {
    const kind: Kind
    const thread: string
    const params: Params
    var plan: Plan
    var state: State
    var attempts: nat
    var externalRef: Option<Ref>
    var events: seq<Event>

    function Value(): Row
      reads this
    {
      Row(kind, thread, params, plan, state, attempts, externalRef, events)
    }

    constructor (kind: Kind, thread: string, params: Params)
      ensures Value() == Recorded(kind, thread, params)
    {
      this.kind, this.thread, this.params := kind, thread, params;
      plan, state, attempts, externalRef := NoPlan, Approved, 0, None;
      events := [];
      new;
      RecordEvent(WasApproved, None);
    }

    method RecordEvent(event: EventKind, ref: Option<Ref>)
      modifies this
      ensures Value() == Actions.RecordEvent(old(Value()), event, ref)
    {
      var sequence := HighestSequence(events) + 1;
      var kept := if ref.Some? then ref else externalRef;
      events := events + [Event(sequence, event, state, kept)];
    }

    method Rollback(before: Row)
      requires before.kind == kind && before.thread == thread && before.params == params
      modifies this
      ensures Value() == before
    {
      plan, state, attempts := before.plan, before.state, before.attempts;
      externalRef, events := before.externalRef, before.events;
    }
  }

  method PrepareAction(cap: Capability, action: ReviewAction, item: ReviewItem) returns (raised: bool)
    modifies action
    ensures var r := Prepare(cap, old(action.Value()), item.subject);
            && raised == r.None?
            && action.Value() == if raised then old(action.Value()) else r.value
  {
    if !CheckExecutable(cap, action.Value()) {
      return true;
    }
    if action.state != Approved {
      return false;
    }
    var planned := PreparePlan(action.kind, action.params, item.subject);
    if planned.None? {
      return true;
    }
    action.plan := planned.value;
    action.state := Prepared;
    action.RecordEvent(WasPrepared, None);
    return false;
  }

  method SettleVerified(action: ReviewAction, item: ReviewItem, ghost c: Client)
    modifies action, item
    ensures Settle(old(action.Value()), c) == Returned(action.Value(), item.state, c)
  {
    action.state := Verified;
    action.RecordEvent(WasVerified, None);
    action.state := Completed;
    item.state := ItemExecuted;
  }

  method FailAction(action: ReviewAction, item: ReviewItem, ghost c: Client)
    modifies action, item
    ensures Fail(old(action.Value()), c) == Returned(action.Value(), item.state, c)
  {
    action.state := State.Failed;
    item.state := ItemFailed;
    action.RecordEvent(HasFailed, None);
  }

  /** A call that raised left the rows alone; one that returned left what `res` says. */
  twostate predicate Left(action: ReviewAction, item: ReviewItem, client: GmailClient, res: Result, raised: bool)
    reads action, item, client
  {
    && client.line == res.client
    && raised == res.Raised?
    && action.Value() == (if raised then old(action.Value()) else res.row)
    && item.state == (if raised then old(item.state) else res.item)
  }

  method AttemptAction(client: GmailClient, cap: Capability, action: ReviewAction, item: ReviewItem)
      returns (raised: bool)
    modifies client, action, item
    ensures Left(action, item, client, Attempt(cap, old(action.Value()), old(client.line)), raised)
  {
    var before := action.Value();
    var performed := Perform(before, client.line);
    hide Perform, ReadBack;
    client.line := performed.client;
    if !performed.Answer? {
      FailAction(action, item, client.line);
      return false;
    }
    var outcome := performed.value;
    action.externalRef := outcome.externalRef;
    action.state := Executed;
    action.RecordEvent(ExecutionEvent(outcome), outcome.externalRef);
    if !cap.requireVerification {
      SettleVerified(action, item, client.line);
      return false;
    }
    var verification := ReadBack(action.Value(), client.line);
    client.line := verification.client;
    match verification {
      case Failed(_) =>
        FailAction(action, item, client.line);
      case Refused(_) =>
        action.Rollback(before);
        return true;
      case Answer(_, verified) =>
        if verified {
          SettleVerified(action, item, client.line);
        } else {
          action.RecordEvent(VerificationFailed, None);
          FailAction(action, item, client.line);
        }
    }
    return false;
  }

  method ExecuteAction(client: GmailClient, cap: Capability, action: ReviewAction, item: ReviewItem)
      returns (raised: bool)
    modifies client, action, item
    ensures Left(action, item, client,
                 Execute(cap, old(action.Value()), old(item.state), old(client.line)), raised)
  {
    hide Attempt, ReadBack;
    if !CheckExecutable(cap, action.Value()) {
      return true;
    }
    if action.state == Completed {
      return false;
    }
    if !MayRun(cap, action.Value()) {
      return true;
    }
    var before := action.Value();
    action.attempts := action.attempts + 1;
    action.RecordEvent(ExecutionStarted, None);
    if action.attempts > 1 {
      var already := ReadBack(action.Value(), client.line);
      client.line := already.client;
      if !already.Answer? {
        FailAction(action, item, client.line);
        return false;
      }
      if already.value {
        action.RecordEvent(AlreadyApplied, None);
        SettleVerified(action, item, client.line);
        return false;
      }
    }
    raised := AttemptAction(client, cap, action, item);
    if raised {
      action.Rollback(before);
    }
  }

  method VerifyAction(client: GmailClient, action: ReviewAction, item: ReviewItem) returns (raised: bool)
    modifies client, action, item
    ensures Left(action, item, client, Verify(old(action.Value()), old(client.line)), raised)
  {
    hide ReadBack;
    if action.kind !in EXECUTORS || action.state == Approved || action.state == Prepared {
      return true;
    }
    var verification := ReadBack(action.Value(), client.line);
    client.line := verification.client;
    match verification {
      case Failed(_) =>
        FailAction(action, item, client.line);
      case Refused(_) =>
        return true;
      case Answer(_, verified) =>
        if verified {
          SettleVerified(action, item, client.line);
        } else {
          action.RecordEvent(VerificationFailed, None);
          FailAction(action, item, client.line);
        }
    }
    return false;
  }

  // ---------------------------------------------------------------- recording approvals

  /** Identity of an intended effect; the digest of it is taken to be injective. */
  datatype Intent = Intent(item: string, kind: Kind, params: Params)

  datatype DecidedItem = DecidedItem(id: string, thread: string, approved: bool, action: Option<Kind>, params: Params)

  datatype Entry = Entry(intent: Intent, row: Row)

  predicate Wanted(item: DecidedItem) {
    item.approved && item.action.Some?
  }

  function IntentOf(item: DecidedItem): Intent
    requires Wanted(item)
  {
    Intent(item.id, item.action.value, item.params)
  }

  predicate Holds(entries: seq<Entry>, intent: Intent) {
    exists i :: 0 <= i < |entries| && entries[i].intent == intent
  }

  function FindEntry(entries: seq<Entry>, intent: Intent): (r: Option<nat>)
    ensures r.None? <==> !Holds(entries, intent)
    ensures r.Some? ==> r.value < |entries| && entries[r.value].intent == intent
  {
    if entries == [] then None
    else if entries[|entries| - 1].intent == intent then Some(|entries| - 1)
    else FindEntry(entries[..|entries| - 1], intent)
  }

  /** What was approved, in the order of the items. */
  function Intents(items: seq<DecidedItem>): seq<Intent> {
    if items == [] then []
    else Intents(items[..|items| - 1]) + if Wanted(items[|items| - 1]) then [IntentOf(items[|items| - 1])] else []
  }

  function Ensured(entries: seq<Entry>, item: DecidedItem): seq<Entry> {
    if !Wanted(item) || Holds(entries, IntentOf(item)) then entries
    else entries + [Entry(IntentOf(item), Recorded(item.action.value, item.thread, item.params))]
  }

  function EnsuredAll(entries: seq<Entry>, items: seq<DecidedItem>): seq<Entry> {
    if items == [] then entries
    else Ensured(EnsuredAll(entries, items[..|items| - 1]), items[|items| - 1])
  }

  ghost predicate OnePerIntent(entries: seq<Entry>) {
    forall i, j :: 0 <= i < j < |entries| ==> entries[i].intent != entries[j].intent
  }

  /** The entry is that of an item approved with this action, to be carried out on its thread. */
  ghost predicate IsFor(entry: Entry, item: DecidedItem) {
    && item.approved && item.action.Some?
    && entry.intent == Intent(item.id, item.action.value, item.params)
    && entry.row == Recorded(item.action.value, item.thread, item.params)
  }

  /** Every approved intent is recorded once, nothing recorded is rewritten, and nothing else is recorded. */
  lemma {:induction false} EnsuringRecordsOnce(entries: seq<Entry>, items: seq<DecidedItem>)
    requires OnePerIntent(entries)
    ensures var after := EnsuredAll(entries, items);
            && entries <= after && OnePerIntent(after)
            && (forall item :: item in items && item.approved && item.action.Some? ==>
                  Holds(after, Intent(item.id, item.action.value, item.params)))
            && (forall k :: |entries| <= k < |after| ==> exists item :: item in items && IsFor(after[k], item))
  {
    if items != [] {
      var before, last := EnsuredAll(entries, items[..|items| - 1]), items[|items| - 1];
      EnsuringRecordsOnce(entries, items[..|items| - 1]);
      var after := EnsuredAll(entries, items);
      assert items == items[..|items| - 1] + [last];
      forall item | item in items && item.approved && item.action.Some?
        ensures Holds(after, Intent(item.id, item.action.value, item.params))
      {
        var intent := Intent(item.id, item.action.value, item.params);
        if Holds(before, intent) {
          var i :| 0 <= i < |before| && before[i].intent == intent;
          assert after[i].intent == intent;
        } else {
          assert after[|before|].intent == intent;
        }
      }
      forall k | |entries| <= k < |after|
        ensures exists item :: item in items && IsFor(after[k], item)
      {
        if k < |before| {
          var item :| item in items[..|items| - 1] && IsFor(before[k], item);
          assert item in items && after[k] == before[k];
        } else {
          assert last in items && IsFor(after[k], last);
        }
      }
    }
  }

  lemma {:induction false} EnsuringAgainAddsNothing(entries: seq<Entry>, items: seq<DecidedItem>)
    requires forall item :: item in items && Wanted(item) ==> Holds(entries, IntentOf(item))
    ensures EnsuredAll(entries, items) == entries
  {
    if items != [] {
      EnsuringAgainAddsNothing(entries, items[..|items| - 1]);
    }
  }

  class ActionTable {
    var entries: seq<Entry>

    constructor ()
      ensures entries == []
    {
      entries := [];
    }

    /** Returns, item by item, the action recorded for what was approved of it, new or there already. */
    method EnsureActions(items: seq<DecidedItem>) returns (recorded: seq<nat>)
      modifies this
      ensures entries == EnsuredAll(old(entries), items)
      ensures |recorded| == |Intents(items)|
      ensures forall k :: 0 <= k < |recorded| ==>
                recorded[k] < |entries| && entries[recorded[k]].intent == Intents(items)[k]
    {
      recorded := [];
      var n := 0;
      while n < |items|
        invariant n <= |items|
        invariant entries == EnsuredAll(old(entries), items[..n])
        invariant |recorded| == |Intents(items[..n])|
        invariant forall k :: 0 <= k < |recorded| ==>
                    recorded[k] < |entries| && entries[recorded[k]].intent == Intents(items[..n])[k]
      {
        var item := items[n];
        assert items[..n + 1][..n] == items[..n];
        if Wanted(item) {
          var existing := FindEntry(entries, IntentOf(item));
          if existing.Some? {
            recorded := recorded + [existing.value];
          } else {
            recorded := recorded + [|entries|];
            entries := entries + [Entry(IntentOf(item), Recorded(item.action.value, item.thread, item.params))];
          }
        }
        n := n + 1;
      }
      assert items[..n] == items;
    }
  }
}
