/**
 The mailbox an action works against, as a value, and the client calls that read and
 write it. Every call consumes one entry of the client's fault script, so a script is
 an adversary that chooses, call by call, whether Gmail answers, fails before the call
 took effect, fails after it did, or says yes and does nothing.
 */
module Mailbox {
  import opened Common

  const INBOX := "INBOX"
  const TRASH := "TRASH"

  datatype Fault = Works | FailsBefore | FailsAfter | Ignored

  /** Drafts are numbered by creation, so a draft id is never used twice. */
  datatype Draft = Draft(thread: string, messageId: nat, live: bool)

  datatype Sent = Sent(draftId: nat, messageId: nat)

  /** `created` and `sent` record what this service did; other writers do not touch them. */
  datatype Mail = Mail(
    threads: map<string, set<string>>,
    labelIds: map<string, string>,
    drafts: seq<Draft>,
    created: nat,
    sent: seq<Sent>)

  datatype Client = Client(mail: Mail, faults: seq<Fault>) {
    function Fault(): Fault {
      if faults == [] then Works else faults[0]
    }

    function Next(): Client {
      if faults == [] then this else this.(faults := faults[1..])
    }
  }

  /** What a call came to: an answer, a `GmailError`, or an `ActionRefused`. */
  datatype Reply<+T> = Answer(client: Client, value: T) | Failed(client: Client) | Refused(client: Client) {
    predicate IsFailure() {
      !Answer?
    }

    function PropagateFailure<U>(): Reply<U>
      requires !Answer?
    {
      if Failed? then Failed(client) else Refused(client)
    }

    function Extract(): (Client, T)
      requires Answer?
    {
      (client, value)
    }
  }

  function ResolveLabelId(c: Client, name: string): Reply<Option<string>> {
    match c.Fault()
    case Works => Answer(c.Next(), if name in c.mail.labelIds then Some(c.mail.labelIds[name]) else None)
    case Ignored => Answer(c.Next(), None)
    case _ => Failed(c.Next())
  }

  function FetchThread(c: Client, thread: string): Reply<set<string>> {
    if c.Fault().FailsBefore? || c.Fault().FailsAfter? || thread !in c.mail.threads
    then Failed(c.Next())
    else Answer(c.Next(), c.mail.threads[thread])
  }

  /** A write to one thread, followed by the read that the client makes of the result. */
  function WriteThread(c: Client, thread: string, written: set<string>): Reply<set<string>> {
    var done := c.mail.(threads := c.mail.threads[thread := written]);
    if thread !in c.mail.threads then Failed(c.Next())
    else
      match c.Fault()
      case FailsBefore => Failed(c.Next())
      case FailsAfter => Failed(c.Next().(mail := done))
      case Ignored => FetchThread(c.Next(), thread)
      case Works => FetchThread(c.Next().(mail := done), thread)
  }

  function Modified(labels: set<string>, add: set<string>, remove: set<string>): set<string> {
    (labels + add) - remove
  }

  function Trashed(labels: set<string>): set<string> {
    (labels - {INBOX}) + {TRASH}
  }

  function Untrashed(labels: set<string>): set<string> {
    labels - {TRASH}
  }

  function CreateDraft(c: Client, thread: string): Reply<nat> {
    var id := |c.mail.drafts|;
    var done := c.mail.(drafts := c.mail.drafts + [Draft(thread, id, true)], created := c.mail.created + 1);
    match c.Fault()
    case FailsBefore => Failed(c.Next())
    case FailsAfter => Failed(c.Next().(mail := done))
    case Ignored => Answer(c.Next(), id)
    case Works => Answer(c.Next().(mail := done), id)
  }

  predicate Live(mail: Mail, id: nat) {
    id < |mail.drafts| && mail.drafts[id].live
  }

  /** A draft by id, or nothing when Gmail no longer holds it. */
  function FetchDraft(c: Client, id: nat): Reply<Option<Draft>> {
    if c.Fault().FailsBefore? || c.Fault().FailsAfter? then Failed(c.Next())
    else Answer(c.Next(), if Live(c.mail, id) then Some(c.mail.drafts[id]) else None)
  }

  predicate HasDraft(mail: Mail, thread: string) {
    exists i :: 0 <= i < |mail.drafts| && mail.drafts[i].live && mail.drafts[i].thread == thread
  }

  /** The first live draft at or after `from` on a thread. */
  function FirstDraft(drafts: seq<Draft>, thread: string, from: nat): (r: Option<nat>)
    ensures r.Some? ==> from <= r.value < |drafts| && drafts[r.value].live && drafts[r.value].thread == thread
    ensures r.None? ==> forall i :: from <= i < |drafts| ==> !(drafts[i].live && drafts[i].thread == thread)
    decreases |drafts| - from
  {
    if from >= |drafts| then None
    else if drafts[from].live && drafts[from].thread == thread then Some(from)
    else FirstDraft(drafts, thread, from + 1)
  }

  /** An `Ignored` listing is one that left the thread's draft out. */
  function FindDraftForThread(c: Client, thread: string): Reply<Option<nat>> {
    match c.Fault()
    case Works => Answer(c.Next(), FirstDraft(c.mail.drafts, thread, 0))
    case Ignored => Answer(c.Next(), None)
    case _ => Failed(c.Next())
  }

  function SendDraft(c: Client, id: nat): Reply<()> {
    if !Live(c.mail, id) then Failed(c.Next())
    else
      var draft := c.mail.drafts[id];
      var done := c.mail.(drafts := c.mail.drafts[id := draft.(live := false)],
                          sent := c.mail.sent + [Sent(id, draft.messageId)]);
      match c.Fault()
      case FailsBefore => Failed(c.Next())
      case FailsAfter => Failed(c.Next().(mail := done))
      case Ignored => Answer(c.Next(), ())
      case Works => Answer(c.Next().(mail := done), ())
  }
}
