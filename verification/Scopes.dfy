/** Which mail a review looks at: `ReviewScope` values and the check every thread is held to. */
module Scopes {
  import opened Common

  const INBOX := "INBOX"
  const TRASH := "TRASH"
  const SPAM := "SPAM"
  const SENT := "SENT"
  const DRAFT := "DRAFT"

  datatype Place = Inbox | Archive | Snoozed | Anywhere

  datatype Term = NotInInbox | InSnoozed | NotInSnoozed | InAnywhere

  datatype Scope = Scope(
    name: string,
    mailbox: Place,
    includeSnoozed: bool,
    includeTrash: bool,
    includeSpam: bool,
    includeSent: bool,
    includeDrafts: bool)
  {
    function LabelIds(labelId: string): seq<string> {
      if mailbox.Inbox? then [INBOX, labelId] else [labelId]
    }

    function Query(): seq<Term> {
      (if mailbox.Archive? then [NotInInbox] else [])
      + (if mailbox.Snoozed? then [InSnoozed] else if !includeSnoozed then [NotInSnoozed] else [])
      + (if includeTrash || includeSpam then [InAnywhere] else [])
    }

    /** What a search in this scope proves about the snooze of a thread it returned. */
    function ObservedSnoozed(): Option<bool> {
      if mailbox.Snoozed? then Some(true)
      else if !includeSnoozed then Some(false)
      else None
    }

    predicate Admits(labels: Option<set<string>>, snoozed: Option<bool>) {
      if labels.None? then false
      else if mailbox.Snoozed? && snoozed != Some(true) then false
      else if !includeSnoozed && snoozed == Some(true) then false
      else
        var ls := labels.value;
        var inInbox := INBOX in ls;
        if !includeTrash && TRASH in ls then false
        else if !includeSpam && SPAM in ls then false
        else if mailbox.Inbox? && !inInbox then false
        else if mailbox.Archive? && inInbox then false
        else if !inInbox && !includeSent && SENT in ls then false
        else if !inInbox && !includeDrafts && DRAFT in ls then false
        else true
    }
  }

  const INBOX_SCOPE := Scope("inbox", Inbox, false, false, false, false, false)
  const ARCHIVED_SCOPE := Scope("archived", Archive, false, false, false, false, false)
  const SNOOZED_SCOPE := Scope("snoozed", Snoozed, true, false, false, false, false)
  const EVERYTHING_SCOPE := Scope("everything", Anywhere, true, true, true, true, true)
  const DEFAULT_SCOPE := INBOX_SCOPE

  datatype Capability = Capability(key: string, labels: seq<string>, mailbox: Place)

  function ScopeFor(mailbox: Place): (s: Scope)
    ensures s.mailbox == mailbox
  {
    match mailbox
    case Inbox => INBOX_SCOPE
    case Archive => ARCHIVED_SCOPE
    case Snoozed => SNOOZED_SCOPE
    case Anywhere => EVERYTHING_SCOPE
  }

  function CapabilityScope(scope: Scope, capability: Capability): Scope {
    if scope.name != DEFAULT_SCOPE.name then scope
    else if capability.mailbox == scope.mailbox then scope
    else ScopeFor(capability.mailbox)
  }

  const SCOPES := {INBOX_SCOPE, ARCHIVED_SCOPE, SNOOZED_SCOPE, EVERYTHING_SCOPE}

  /** Nothing but its own sent mail or an unsent draft, once it is out of the inbox. */
  predicate OnlySentOrDraft(labels: set<string>) {
    INBOX !in labels && (SENT in labels || DRAFT in labels)
  }

  predicate Discarded(labels: set<string>) {
    TRASH in labels || SPAM in labels
  }

  /** Where a thread with these labels is, for a review of this place. */
  predicate InPlace(place: Place, labels: set<string>) {
    match place
    case Inbox => INBOX in labels && !Discarded(labels)
    case Archive => INBOX !in labels && !Discarded(labels) && !OnlySentOrDraft(labels)
    case Snoozed => !Discarded(labels) && !OnlySentOrDraft(labels)
    case Anywhere => true
  }

  /** Each scope admits exactly what is in its place: awake in inbox and archive, known to be asleep in snoozed. */
  lemma AdmittedExactlyWhen(s: Scope, labels: Option<set<string>>, snoozed: Option<bool>)
    requires s in SCOPES
    ensures s.Admits(labels, snoozed) <==>
              && labels.Some? && InPlace(s.mailbox, labels.value)
              && (s.mailbox.Inbox? || s.mailbox.Archive? ==> snoozed != Some(true))
              && (s.mailbox.Snoozed? ==> snoozed == Some(true))
  {
  }

  /** What each scope asks Gmail for, and what an answer proves of a thread's snooze. */
  lemma SearchesExactly(id: string)
    ensures INBOX_SCOPE.LabelIds(id) == [INBOX, id] && INBOX_SCOPE.Query() == [NotInSnoozed]
    ensures ARCHIVED_SCOPE.LabelIds(id) == [id] && ARCHIVED_SCOPE.Query() == [NotInInbox, NotInSnoozed]
    ensures SNOOZED_SCOPE.LabelIds(id) == [id] && SNOOZED_SCOPE.Query() == [InSnoozed]
    ensures EVERYTHING_SCOPE.LabelIds(id) == [id] && EVERYTHING_SCOPE.Query() == [InAnywhere]
    ensures forall s :: s in SCOPES ==>
              s.ObservedSnoozed() == if InSnoozed in s.Query() then Some(true)
                                     else if NotInSnoozed in s.Query() then Some(false) else None
  {
  }

  /** On what its own search proves, a scope admits a thread exactly where its labels put it there. */
  lemma FoundIsAdmittedExactlyWhen(s: Scope, labels: set<string>)
    requires s in SCOPES
    ensures s.Admits(Some(labels), s.ObservedSnoozed()) <==> InPlace(s.mailbox, labels)
  {
    AdmittedExactlyWhen(s, Some(labels), s.ObservedSnoozed());
    hide *;
    SearchesExactly("");
  }

  /**
   A thread Gmail no longer has is stored with no labels at all, on the ground that no scope
   admits it. That is true of the inbox and of no other place: every scope elsewhere admits
   it unless its snooze is known to be the wrong one.
   */
  lemma NowhereIsAdmitted(s: Scope, snoozed: Option<bool>)
    ensures s.Admits(Some({}), snoozed) <==>
              && !s.mailbox.Inbox?
              && (s.mailbox.Snoozed? ==> snoozed == Some(true))
              && (!s.includeSnoozed ==> snoozed != Some(true))
    ensures ARCHIVED_SCOPE.Admits(Some({}), Some(false)) && EVERYTHING_SCOPE.Admits(Some({}), None)
  {
  }

  /** Asking for one place means that place: only the default review defers to configuration. */
  lemma RequestedScopeWins(scope: Scope, capability: Capability)
    ensures CapabilityScope(scope, capability).mailbox ==
              if scope.name == DEFAULT_SCOPE.name then capability.mailbox else scope.mailbox
    ensures scope.name != DEFAULT_SCOPE.name ==> CapabilityScope(scope, capability) == scope
    ensures scope in SCOPES ==> CapabilityScope(scope, capability) in SCOPES
  {
  }
}
