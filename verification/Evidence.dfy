/**
 Evidence as a cache of the mailbox. `Scan` is what the searches of one sync found;
 `Synced` is what that sync makes of one thread's row, thread by thread, and is what the
 in-place sync below is proved to leave.
 */
module Evidence {
  import opened Common
  import opened Scopes

  const MAX_SYNC_LIMIT := 200

  /**
   `content` stands for every field the content hash covers, and for the hash of them. Labels lie
   outside it: a thread whose labels alone changed is unchanged, and its labels are noted apart.
   */
  datatype Thread = Thread(content: string, labels: set<string>)

  datatype Fetched = Found(thread: Thread) | NotFound | Unreachable

  /** Gmail during one sync. What a search returns is Gmail's to decide, and is not trusted. */
  datatype Gmail = Gmail(
    threads: map<string, Thread>,
    down: set<string>,
    labelIds: map<string, string>,
    search: (seq<string>, seq<Term>) -> seq<string>)
  {
    function Fetch(id: string): Fetched {
      if id in down then Unreachable
      else if id in threads then Found(threads[id])
      else NotFound
    }

    function ListThreadIds(labels: seq<string>, limit: nat, query: seq<Term>): (ids: seq<string>)
      ensures |ids| <= limit
    {
      var all := search(labels, query);
      if |all| <= limit then all else all[..limit]
    }
  }

  datatype Row = Row(content: string, keys: set<string>, labels: Option<set<string>>, snoozed: Option<bool>)

  datatype Verdict = Created | Updated | Unchanged

  // ---------------------------------------------------------------- the search

  datatype Scan = Scan(
    attribution: map<string, set<string>>,
    order: seq<string>,
    owners: map<string, set<string>>,
    watched: map<string, Scope>,
    incomplete: nat)

  function AddThread(s: Scan, key: string, id: string): Scan {
    if id in s.attribution
    then s.(attribution := s.attribution[id := s.attribution[id] + {key}])
    else s.(attribution := s.attribution[id := {key}], order := s.order + [id])
  }

  function AddThreads(s: Scan, key: string, ids: seq<string>): Scan {
    if ids == [] then s else AddThread(AddThreads(s, key, ids[..|ids| - 1]), key, ids[|ids| - 1])
  }

  function AddOwner(s: Scan, labelId: string, key: string): Scan {
    s.(owners := s.owners[labelId := (if labelId in s.owners then s.owners[labelId] else {}) + {key}])
  }

  function ScanLabel(s: Scan, g: Gmail, key: string, watched: Scope, name: string, limit: nat): Scan {
    if name !in g.labelIds then s.(incomplete := s.incomplete + 1)
    else
      var id := g.labelIds[name];
      var ids := g.ListThreadIds(watched.LabelIds(id), limit, watched.Query());
      var owned := AddOwner(s, id, key);
      AddThreads(if |ids| >= limit then owned.(incomplete := owned.incomplete + 1) else owned, key, ids)
  }

  function ScanLabels(s: Scan, g: Gmail, key: string, watched: Scope, labels: seq<string>, limit: nat): Scan {
    if labels == [] then s
    else ScanLabel(ScanLabels(s, g, key, watched, labels[..|labels| - 1], limit), g, key, watched,
                   labels[|labels| - 1], limit)
  }

  function ScanCapability(s: Scan, g: Gmail, scope: Scope, capability: Capability, limit: nat): Scan {
    var watched := CapabilityScope(scope, capability);
    ScanLabels(s.(watched := s.watched[capability.key := watched]), g, capability.key, watched,
               capability.labels, limit)
  }

  function ScanAll(g: Gmail, scope: Scope, capabilities: seq<Capability>, limit: nat): Scan {
    if capabilities == [] then Scan(map[], [], map[], map[], 0)
    else ScanCapability(ScanAll(g, scope, capabilities[..|capabilities| - 1], limit), g, scope,
                        capabilities[|capabilities| - 1], limit)
  }

  // ---------------------------------------------------------------- one thread of a scan

  /** What the searches that found a thread agree about its snooze; disagreement teaches nothing. */
  function ObservedSnooze(watched: map<string, Scope>, keys: set<string>): Option<bool> {
    var answers := set key | key in keys && key in watched :: watched[key].ObservedSnoozed();
    if Some(true) in answers then if Some(false) in answers then None else Some(true)
    else if Some(false) in answers then Some(false)
    else None
  }

  function InScope(watched: map<string, Scope>, keys: set<string>, labels: set<string>): set<string> {
    set key | key in keys && key in watched && watched[key].Admits(Some(labels), watched[key].ObservedSnoozed())
  }

  function RecordThread(stored: Option<Row>, thread: Thread, keys: set<string>, snoozed: Option<bool>): (Row, Verdict) {
    match stored
    case None => (Row(thread.content, keys, Some(thread.labels), snoozed), Created)
    case Some(row) =>
      var seen := row.(labels := Some(thread.labels), snoozed := if snoozed.Some? then snoozed else row.snoozed);
      if row.content == thread.content && row.keys == keys then (seen, Unchanged)
      else (seen.(content := thread.content, keys := keys), Updated)
  }

  function NoteLabels(stored: Option<Row>, thread: Thread, snoozed: Option<bool>): Option<Row> {
    match stored
    case None => None
    case Some(row) =>
      Some(row.(labels := Some(thread.labels), snoozed := if snoozed.Some? then snoozed else row.snoozed))
  }

  datatype Outcome = Outcome(row: Option<Row>, verdict: Option<Verdict>)

  function ScannedOutcome(scan: Scan, id: string, thread: Thread, stored: Option<Row>): Outcome
    requires id in scan.attribution
  {
    var keys := scan.attribution[id];
    var observed := ObservedSnooze(scan.watched, keys);
    var inScope := InScope(scan.watched, keys, thread.labels);
    if inScope == {} then Outcome(NoteLabels(stored, thread, observed), None)
    else
      var (row, verdict) := RecordThread(stored, thread, inScope, observed);
      Outcome(Some(row), Some(verdict))
  }

  // ---------------------------------------------------------------- rows the scan did not find

  predicate WatchedBy(watched: map<string, Scope>, row: Row) {
    exists key :: key in row.keys && key in watched
  }

  predicate AdmittedBy(watched: map<string, Scope>, row: Row) {
    exists key :: key in row.keys && key in watched && watched[key].Admits(row.labels, row.snoozed)
  }

  predicate Stale(watched: map<string, Scope>, row: Row) {
    WatchedBy(watched, row) && (row.labels.None? || AdmittedBy(watched, row))
  }

  function Owners(scan: Scan, labels: set<string>): set<string> {
    set id, key | id in scan.owners && id in labels && key in scan.owners[id] :: key
  }

  function RecheckedOutcome(scan: Scan, fetched: Fetched, row: Row): Outcome
    requires !fetched.Unreachable?
  {
    match fetched
    case NotFound => Outcome(Some(row.(labels := Some({}))), None)
    case Found(thread) =>
      var inScope := set key | key in Owners(scan, thread.labels) && key in scan.watched
                               && scan.watched[key].Admits(Some(thread.labels), row.snoozed);
      if inScope == {} then Outcome(Some(row.(labels := Some(thread.labels))), None)
      else
        var (next, verdict) := RecordThread(Some(row), thread, inScope, None);
        Outcome(Some(next), Some(verdict))
  }

  /** What one sync makes of one thread, given the row stored for it before. */
  function Synced(g: Gmail, scan: Scan, id: string, stored: Option<Row>): Outcome {
    if id in scan.attribution then
      match g.Fetch(id)
      case Found(thread) => ScannedOutcome(scan, id, thread, stored)
      case _ => Outcome(stored, None)
    else if stored.Some? && Stale(scan.watched, stored.value) && !g.Fetch(id).Unreachable? then
      RecheckedOutcome(scan, g.Fetch(id), stored.value)
    else Outcome(stored, None)
  }

  function Get(rows: map<string, Row>, id: string): Option<Row> {
    if id in rows then Some(rows[id]) else None
  }

  // ---------------------------------------------------------------- what a sync promises

  /** Where Gmail says a thread is now; a thread it no longer has is nowhere. */
  function LabelsNow(g: Gmail, id: string): set<string> {
    if id in g.threads then g.threads[id].labels else {}
  }

  /** Every thread this sync reads could be read. */
  predicate Readable(g: Gmail, scan: Scan, rows: map<string, Row>) {
    && (forall id :: id in scan.attribution ==> g.Fetch(id).Found?)
    && (forall id :: id in rows && id !in scan.attribution && Stale(scan.watched, rows[id]) ==>
          !g.Fetch(id).Unreachable?)
  }

  /**
   The cache agrees with the mailbox: after a sync, a row attributed to a watched capability
   and admitted by that capability's scope carries the labels Gmail has now.
   */
  lemma SyncedRowsAreCurrent(g: Gmail, scan: Scan, id: string, stored: Option<Row>)
    requires id in scan.attribution ==> g.Fetch(id).Found?
    requires id !in scan.attribution && stored.Some? && Stale(scan.watched, stored.value) ==> !g.Fetch(id).Unreachable?
    ensures var row := Synced(g, scan, id, stored).row;
            row.Some? && AdmittedBy(scan.watched, row.value) ==> row.value.labels == Some(LabelsNow(g, id))
  {
    if id !in scan.attribution && stored.Some? && AdmittedBy(scan.watched, stored.value) {
      assert WatchedBy(scan.watched, stored.value);
    }
  }

  /** Syncing again over the same mailbox changes no row and neither creates nor updates one. */
  lemma SyncAgainChangesNothing(g: Gmail, scan: Scan, id: string, stored: Option<Row>)
    requires id in scan.attribution ==> g.Fetch(id).Found?
    ensures var once := Synced(g, scan, id, stored).row;
            Synced(g, scan, id, once).row == once
            && Synced(g, scan, id, once).verdict in {None, Some(Unchanged)}
  {
  }

  // ---------------------------------------------------------------- what a scan covers

  /** A search for this capability's name, in its scope, returned the thread within the limit. */
  predicate FoundBy(g: Gmail, scope: Scope, capability: Capability, name: string, limit: nat, id: string) {
    && name in capability.labels
    && name in g.labelIds
    && var watched := CapabilityScope(scope, capability);
       id in g.ListThreadIds(watched.LabelIds(g.labelIds[name]), limit, watched.Query())
  }

  ghost predicate Covers(s: Scan, t: Scan) {
    forall id :: id in s.attribution ==> id in t.attribution && s.attribution[id] <= t.attribution[id]
  }

  ghost predicate WellFormed(s: Scan) {
    && Distinct(s.order)
    && (forall id :: id in s.order <==> id in s.attribution)
    && (forall id :: id in s.attribution ==> s.attribution[id] != {} && s.attribution[id] <= s.watched.Keys)
    && (forall id :: id in s.owners ==> s.owners[id] <= s.watched.Keys)
  }

  lemma {:induction false} AddThreadsCovers(s: Scan, key: string, ids: seq<string>)
    requires WellFormed(s) && key in s.watched
    ensures var t := AddThreads(s, key, ids);
            && WellFormed(t) && Covers(s, t) && t.watched == s.watched
            && t.incomplete == s.incomplete && t.owners == s.owners
            && (forall id :: id in ids ==> id in t.attribution && key in t.attribution[id])
  {
    if ids != [] {
      var front, last := ids[..|ids| - 1], ids[|ids| - 1];
      AddThreadsCovers(s, key, front);
      var t := AddThreads(s, key, front);
      if last !in t.attribution {
        DistinctAppend(t.order, last);
      }
      assert forall id :: id in ids <==> id in front || id == last;
    }
  }

  lemma {:induction false} ScanLabelsCovers(s: Scan, g: Gmail, key: string, watched: Scope, labels: seq<string>, limit: nat)
    requires WellFormed(s) && key in s.watched
    ensures var t := ScanLabels(s, g, key, watched, labels, limit);
            && WellFormed(t) && Covers(s, t) && t.watched == s.watched
            && (forall name, id |
                  name in labels && name in g.labelIds
                  && id in g.ListThreadIds(watched.LabelIds(g.labelIds[name]), limit, watched.Query()) ::
                  id in t.attribution && key in t.attribution[id])
  {
    if labels != [] {
      var front, last := labels[..|labels| - 1], labels[|labels| - 1];
      ScanLabelsCovers(s, g, key, watched, front, limit);
      var t := ScanLabels(s, g, key, watched, front, limit);
      if last in g.labelIds {
        var ids := g.ListThreadIds(watched.LabelIds(g.labelIds[last]), limit, watched.Query());
        var owned := AddOwner(t, g.labelIds[last], key);
        AddThreadsCovers(if |ids| >= limit then owned.(incomplete := owned.incomplete + 1) else owned, key, ids);
      }
      assert forall name :: name in labels <==> name in front || name == last;
    }
  }

  lemma {:induction false} ScanAllCovers(g: Gmail, scope: Scope, capabilities: seq<Capability>, limit: nat)
    ensures var s := ScanAll(g, scope, capabilities, limit);
            && WellFormed(s)
            && (forall c :: c in capabilities ==> c.key in s.watched)
            && (forall c, name, id :: c in capabilities && FoundBy(g, scope, c, name, limit, id) ==>
                  id in s.attribution && c.key in s.attribution[id])
  {
    if capabilities != [] {
      var front, last := capabilities[..|capabilities| - 1], capabilities[|capabilities| - 1];
      ScanAllCovers(g, scope, front, limit);
      var s := ScanAll(g, scope, front, limit);
      var watched := CapabilityScope(scope, last);
      var s' := s.(watched := s.watched[last.key := watched]);
      ScanLabelsCovers(s', g, last.key, watched, last.labels, limit);
      assert forall c :: c in capabilities <==> c in front || c == last;
    }
  }

  /**
   A thread the search returned, and its capability's scope admits on the labels it carries,
   is recorded by the sync; so a prune, which keeps what was recorded, cannot retire it.
   */
  lemma InScopeIsRecorded(g: Gmail, scope: Scope, capabilities: seq<Capability>, limit: nat,
                          capability: Capability, name: string, id: string, stored: Option<Row>)
    requires capability in capabilities && FoundBy(g, scope, capability, name, limit, id)
    requires g.Fetch(id).Found?
    requires var s := ScanAll(g, scope, capabilities, limit);
             capability.key in s.watched &&
             s.watched[capability.key].Admits(Some(LabelsNow(g, id)), s.watched[capability.key].ObservedSnoozed())
    ensures var s := ScanAll(g, scope, capabilities, limit);
            Synced(g, s, id, stored).verdict.Some? && capability.key in Synced(g, s, id, stored).row.value.keys
  {
    ScanAllCovers(g, scope, capabilities, limit);
    var s := ScanAll(g, scope, capabilities, limit);
    assert capability.key in InScope(s.watched, s.attribution[id], g.threads[id].labels);
  }

  // ---------------------------------------------------------------- and nothing else

  /** What the searches for these labels of one capability returned. */
  ghost predicate ReturnedFor(g: Gmail, watched: Scope, labels: seq<string>, limit: nat, id: string) {
    exists name :: name in labels && name in g.labelIds
                   && id in g.ListThreadIds(watched.LabelIds(g.labelIds[name]), limit, watched.Query())
  }

  ghost predicate Attributed(s: Scan, id: string, key: string) {
    id in s.attribution && key in s.attribution[id]
  }

  lemma {:induction false} AddThreadsOnly(s: Scan, key: string, ids: seq<string>, id: string, k: string)
    ensures Attributed(AddThreads(s, key, ids), id, k) <==> Attributed(s, id, k) || (k == key && id in ids)
  {
    if ids != [] {
      var front, last := ids[..|ids| - 1], ids[|ids| - 1];
      AddThreadsOnly(s, key, front, id, k);
      assert ids == front + [last];
    }
  }

  lemma {:induction false} ScanLabelsOnly(s: Scan, g: Gmail, key: string, watched: Scope, labels: seq<string>, limit: nat,
                                          id: string, k: string)
    ensures Attributed(ScanLabels(s, g, key, watched, labels, limit), id, k) <==>
              Attributed(s, id, k) || (k == key && ReturnedFor(g, watched, labels, limit, id))
  {
    if labels != [] {
      var front, last := labels[..|labels| - 1], labels[|labels| - 1];
      ScanLabelsOnly(s, g, key, watched, front, limit, id, k);
      ReturnedForMore(g, watched, front, last, limit, id);
      assert labels == front + [last];
      var before := ScanLabels(s, g, key, watched, front, limit);
      if last in g.labelIds {
        var ids := g.ListThreadIds(watched.LabelIds(g.labelIds[last]), limit, watched.Query());
        var owned := AddOwner(before, g.labelIds[last], key);
        AddThreadsOnly(if |ids| >= limit then owned.(incomplete := owned.incomplete + 1) else owned, key, ids, id, k);
      }
      hide ReturnedFor, AddThreads;
    }
  }

  lemma ReturnedForMore(g: Gmail, watched: Scope, front: seq<string>, last: string, limit: nat, id: string)
    ensures ReturnedFor(g, watched, front + [last], limit, id) <==>
              || ReturnedFor(g, watched, front, limit, id)
              || (last in g.labelIds && id in g.ListThreadIds(watched.LabelIds(g.labelIds[last]), limit, watched.Query()))
  {
    var labels := front + [last];
    assert last in labels && forall name :: name in labels <==> name in front || name == last;
    if name :| name in front && name in g.labelIds
               && id in g.ListThreadIds(watched.LabelIds(g.labelIds[name]), limit, watched.Query()) {
      assert name in labels;
    }
  }

  ghost predicate DistinctKeys(capabilities: seq<Capability>) {
    forall a, b :: a in capabilities && b in capabilities && a.key == b.key ==> a == b
  }

  ghost predicate Returned(g: Gmail, scope: Scope, c: Capability, limit: nat, id: string) {
    ReturnedFor(g, CapabilityScope(scope, c), c.labels, limit, id)
  }

  /** The scan knows of a capability just its own scope and the threads its searches returned. */
  ghost predicate Traced(g: Gmail, scope: Scope, capabilities: seq<Capability>, limit: nat, s: Scan) {
    && (forall c :: c in capabilities ==> c.key in s.watched && s.watched[c.key] == CapabilityScope(scope, c))
    && (forall id, k :: Attributed(s, id, k) <==>
          exists c :: c in capabilities && c.key == k && Returned(g, scope, c, limit, id))
  }

  lemma {:induction false} ScanLabelsWatch(s: Scan, g: Gmail, key: string, watched: Scope, labels: seq<string>, limit: nat)
    ensures ScanLabels(s, g, key, watched, labels, limit).watched == s.watched
  {
    if labels != [] {
      var front, last := labels[..|labels| - 1], labels[|labels| - 1];
      ScanLabelsWatch(s, g, key, watched, front, limit);
      if last in g.labelIds {
        var ids := g.ListThreadIds(watched.LabelIds(g.labelIds[last]), limit, watched.Query());
        var owned := AddOwner(ScanLabels(s, g, key, watched, front, limit), g.labelIds[last], key);
        AddThreadsWatch(if |ids| >= limit then owned.(incomplete := owned.incomplete + 1) else owned, key, ids);
      }
    }
  }

  lemma {:induction false} AddThreadsWatch(s: Scan, key: string, ids: seq<string>)
    ensures AddThreads(s, key, ids).watched == s.watched
  {
    if ids != [] {
      AddThreadsWatch(s, key, ids[..|ids| - 1]);
    }
  }

  lemma {:induction false} ScanAllTraces(g: Gmail, scope: Scope, capabilities: seq<Capability>, limit: nat)
    requires DistinctKeys(capabilities)
    ensures Traced(g, scope, capabilities, limit, ScanAll(g, scope, capabilities, limit))
  {
    if capabilities != [] {
      var front, last := capabilities[..|capabilities| - 1], capabilities[|capabilities| - 1];
      assert forall c :: c in capabilities <==> c in front || c == last;
      ScanAllTraces(g, scope, front, limit);
      var s := ScanAll(g, scope, front, limit);
      var watched := CapabilityScope(scope, last);
      var started := s.(watched := s.watched[last.key := watched]);
      forall id, k
        ensures Attributed(ScanAll(g, scope, capabilities, limit), id, k) <==>
                  Attributed(s, id, k) || (k == last.key && Returned(g, scope, last, limit, id))
      {
        ScanLabelsOnly(started, g, last.key, watched, last.labels, limit, id, k);
      }
      ScanLabelsWatch(started, g, last.key, watched, last.labels, limit);
      hide ScanLabels, CapabilityScope, Returned, Attributed;
    }
  }

  /**
   A thread a search returned is recorded under exactly the capabilities whose search returned it
   and whose place its labels put it in, and under none it is left out; its row carries what
   Gmail has.
   */
  lemma RecordedExactlyUnder(g: Gmail, scope: Scope, capabilities: seq<Capability>, limit: nat, id: string,
                             stored: Option<Row>, key: string)
    requires DistinctKeys(capabilities) && scope in SCOPES && g.Fetch(id).Found?
    requires id in ScanAll(g, scope, capabilities, limit).attribution
    ensures var o := Synced(g, ScanAll(g, scope, capabilities, limit), id, stored);
            && (o.verdict.Some? && key in o.row.value.keys <==>
                  exists c :: c in capabilities && c.key == key && Returned(g, scope, c, limit, id)
                              && InPlace(CapabilityScope(scope, c).mailbox, LabelsNow(g, id)))
            && (o.verdict.Some? ==>
                  o.row.value.content == g.threads[id].content && o.row.value.labels == Some(LabelsNow(g, id)))
  {
    var s := ScanAll(g, scope, capabilities, limit);
    ScanAllTraces(g, scope, capabilities, limit);
    forall c | c in capabilities
      ensures s.watched[c.key].Admits(Some(LabelsNow(g, id)), s.watched[c.key].ObservedSnoozed())
              <==> InPlace(CapabilityScope(scope, c).mailbox, LabelsNow(g, id))
    {
      RequestedScopeWins(scope, c);
      FoundIsAdmittedExactlyWhen(CapabilityScope(scope, c), LabelsNow(g, id));
    }
    hide ScanAll, CapabilityScope, InPlace, Returned;
    assert Attributed(s, id, key) <==> exists c :: c in capabilities && c.key == key && Returned(g, scope, c, limit, id);
    assert key in InScope(s.watched, s.attribution[id], g.threads[id].labels) <==>
             exists c :: c in capabilities && c.key == key && Returned(g, scope, c, limit, id)
                         && InPlace(CapabilityScope(scope, c).mailbox, LabelsNow(g, id));
  }

  /** A thread is created where there was no row, unchanged where neither content nor attribution is new, and updated otherwise. */
  lemma VerdictExactlyWhen(stored: Option<Row>, thread: Thread, keys: set<string>, snoozed: Option<bool>)
    ensures var (row, verdict) := RecordThread(stored, thread, keys, snoozed);
            && (verdict.Created? <==> stored.None?)
            && (verdict.Unchanged? <==> stored.Some? && stored.value.content == thread.content && stored.value.keys == keys)
            && row.content == thread.content && row.keys == keys && row.labels == Some(thread.labels)
            && row.snoozed == (if snoozed.Some? || stored.None? then snoozed else stored.value.snoozed)
  {
  }

  /** The thread carries a label that is one of the capability's. */
  ghost predicate Carries(g: Gmail, c: Capability, labels: set<string>) {
    exists name :: name in c.labels && name in g.labelIds && g.labelIds[name] in labels
  }

  ghost predicate OwnedBy(g: Gmail, names: seq<string>, id: string) {
    exists name :: name in names && name in g.labelIds && g.labelIds[name] == id
  }

  ghost predicate Owns(s: Scan, id: string, key: string) {
    id in s.owners && key in s.owners[id]
  }

  lemma {:induction false} AddThreadsOwners(s: Scan, key: string, ids: seq<string>)
    ensures AddThreads(s, key, ids).owners == s.owners
  {
    if ids != [] {
      AddThreadsOwners(s, key, ids[..|ids| - 1]);
    }
  }

  lemma {:induction false} ScanLabelsOwn(s: Scan, g: Gmail, key: string, watched: Scope, labels: seq<string>, limit: nat,
                                         id: string, k: string)
    ensures Owns(ScanLabels(s, g, key, watched, labels, limit), id, k) <==> Owns(s, id, k) || (k == key && OwnedBy(g, labels, id))
  {
    if labels != [] {
      var front, last := labels[..|labels| - 1], labels[|labels| - 1];
      ScanLabelsOwn(s, g, key, watched, front, limit, id, k);
      OwnedByMore(g, front, last, id);
      assert labels == front + [last];
      var before := ScanLabels(s, g, key, watched, front, limit);
      if last in g.labelIds {
        var ids := g.ListThreadIds(watched.LabelIds(g.labelIds[last]), limit, watched.Query());
        var owned := AddOwner(before, g.labelIds[last], key);
        AddThreadsOwners(if |ids| >= limit then owned.(incomplete := owned.incomplete + 1) else owned, key, ids);
      }
      hide OwnedBy, AddThreads;
    }
  }

  lemma OwnedByMore(g: Gmail, front: seq<string>, last: string, id: string)
    ensures OwnedBy(g, front + [last], id) <==> OwnedBy(g, front, id) || (last in g.labelIds && g.labelIds[last] == id)
  {
    var labels := front + [last];
    assert last in labels && forall name :: name in labels <==> name in front || name == last;
    if name :| name in front && name in g.labelIds && g.labelIds[name] == id {
      assert name in labels;
    }
  }

  lemma {:induction false} ScanAllOwns(g: Gmail, scope: Scope, capabilities: seq<Capability>, limit: nat, id: string, k: string)
    ensures Owns(ScanAll(g, scope, capabilities, limit), id, k) <==>
              exists c :: c in capabilities && c.key == k && OwnedBy(g, c.labels, id)
  {
    if capabilities != [] {
      var front, last := capabilities[..|capabilities| - 1], capabilities[|capabilities| - 1];
      assert forall c :: c in capabilities <==> c in front || c == last;
      ScanAllOwns(g, scope, front, limit, id, k);
      var s := ScanAll(g, scope, front, limit);
      var watched := CapabilityScope(scope, last);
      var started := s.(watched := s.watched[last.key := watched]);
      ScanLabelsOwn(started, g, last.key, watched, last.labels, limit, id, k);
      hide ScanLabels, CapabilityScope, OwnedBy;
    }
  }

  /**
   A recorded thread the searches missed is recorded again under exactly the capabilities one of
   whose labels it carries and whose scope admits it, its snooze being what was last learned.
   */
  lemma RecheckedExactlyUnder(g: Gmail, scope: Scope, capabilities: seq<Capability>, limit: nat, id: string,
                              row: Row, key: string)
    requires DistinctKeys(capabilities) && scope in SCOPES && g.Fetch(id).Found?
    requires var s := ScanAll(g, scope, capabilities, limit); id !in s.attribution && Stale(s.watched, row)
    ensures var o := Synced(g, ScanAll(g, scope, capabilities, limit), id, Some(row));
            && (o.verdict.Some? && key in o.row.value.keys <==>
                  exists c :: c in capabilities && c.key == key && Carries(g, c, LabelsNow(g, id))
                              && CapabilityScope(scope, c).Admits(Some(LabelsNow(g, id)), row.snoozed))
            && o.row.value.labels == Some(LabelsNow(g, id)) && o.row.value.snoozed == row.snoozed
  {
    var s, labels := ScanAll(g, scope, capabilities, limit), LabelsNow(g, id);
    ScanAllTraces(g, scope, capabilities, limit);
    OwnersCarry(g, scope, capabilities, limit, labels, key);
    hide ScanAll, CapabilityScope, Carries, Owners, Attributed;
    var inScope := set k | k in Owners(s, labels) && k in s.watched && s.watched[k].Admits(Some(labels), row.snoozed);
    assert key in inScope <==>
             exists c :: c in capabilities && c.key == key && Carries(g, c, labels)
                         && CapabilityScope(scope, c).Admits(Some(labels), row.snoozed);
  }

  lemma OwnersCarry(g: Gmail, scope: Scope, capabilities: seq<Capability>, limit: nat, labels: set<string>, k: string)
    ensures k in Owners(ScanAll(g, scope, capabilities, limit), labels)
            <==> exists c :: c in capabilities && c.key == k && Carries(g, c, labels)
  {
    var s := ScanAll(g, scope, capabilities, limit);
    hide ScanAll;
    if k in Owners(s, labels) {
      var id :| id in labels && Owns(s, id, k);
      ScanAllOwns(g, scope, capabilities, limit, id, k);
      var c :| c in capabilities && c.key == k && OwnedBy(g, c.labels, id);
      var name :| name in c.labels && name in g.labelIds && g.labelIds[name] == id;
      assert Carries(g, c, labels);
    }
    if c :| c in capabilities && c.key == k && Carries(g, c, labels) {
      var name :| name in c.labels && name in g.labelIds && g.labelIds[name] in labels;
      assert OwnedBy(g, c.labels, g.labelIds[name]);
      ScanAllOwns(g, scope, capabilities, limit, g.labelIds[name], k);
      assert Owns(s, g.labelIds[name], k);
    }
  }
}
