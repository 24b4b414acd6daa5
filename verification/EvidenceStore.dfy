/**
 The evidence table and the sync that updates it in place: the searches, the threads they
 found, the recorded rows they did not find, and the prune.
 */
module EvidenceStore {
  import opened Common
  import opened Scopes
  import opened Evidence

  datatype Refusal = PruneScopeRefused | PruneScanTruncated | GmailFailed

  datatype Counts = Counts(recorded: seq<string>, created: nat, updated: nat, same: nat) {
    function Note(id: string, verdict: Verdict): Counts {
      var c := this.(recorded := recorded + [id]);
      match verdict
      case Created => c.(created := created + 1)
      case Updated => c.(updated := updated + 1)
      case Unchanged => c.(same := same + 1)
    }
  }

  datatype Result = Refused(why: Refusal) | Done(counts: Counts, removed: nat, truncated: bool)

  /** How many of these threads came to this verdict. */
  ghost function Tally(g: Gmail, scan: Scan, rows: map<string, Row>, ids: seq<string>, verdict: Verdict): nat {
    if ids == [] then 0
    else
      Tally(g, scan, rows, ids[..|ids| - 1], verdict)
      + if Synced(g, scan, ids[|ids| - 1], Get(rows, ids[|ids| - 1])).verdict == Some(verdict) then 1 else 0
  }

  ghost predicate Counted(g: Gmail, scan: Scan, rows: map<string, Row>, counts: Counts) {
    && counts.created == Tally(g, scan, rows, counts.recorded, Created)
    && counts.updated == Tally(g, scan, rows, counts.recorded, Updated)
    && counts.same == Tally(g, scan, rows, counts.recorded, Unchanged)
  }

  lemma TallyOne(g: Gmail, scan: Scan, rows: map<string, Row>, ids: seq<string>, id: string, verdict: Verdict)
    ensures Tally(g, scan, rows, ids + [id], verdict)
            == Tally(g, scan, rows, ids, verdict) + if Synced(g, scan, id, Get(rows, id)).verdict == Some(verdict) then 1 else 0
  {
    hide Synced;
    assert (ids + [id])[..|ids|] == ids;
  }

  lemma CountsOne(g: Gmail, scan: Scan, rows: map<string, Row>, counts: Counts, id: string, verdict: Verdict)
    requires Counted(g, scan, rows, counts)
    requires Synced(g, scan, id, Get(rows, id)).verdict == Some(verdict)
    ensures Counted(g, scan, rows, counts.Note(id, verdict))
  {
    hide Synced;
    TallyOne(g, scan, rows, counts.recorded, id, Created);
    TallyOne(g, scan, rows, counts.recorded, id, Updated);
    TallyOne(g, scan, rows, counts.recorded, id, Unchanged);
    hide Tally;
  }

  /** One row, and no other, becomes this. */
  ghost predicate Becomes(was: map<string, Row>, now: map<string, Row>, id: string, row: Option<Row>) {
    forall x :: Get(now, x) == if x == id then row else Get(was, x)
  }

  /** The threads in `done` are as one sync leaves them, and are counted; no other row has moved. */
  ghost predicate Progress(g: Gmail, scan: Scan, before: map<string, Row>, rows: map<string, Row>,
                           counts: Counts, done: set<string>) {
    && (forall id :: Get(rows, id) ==
          if id in done then Synced(g, scan, id, Get(before, id)).row else Get(before, id))
    && Distinct(counts.recorded)
    && (forall id :: id in counts.recorded <==> id in done && Synced(g, scan, id, Get(before, id)).verdict.Some?)
    && Counted(g, scan, before, counts)
  }

  lemma EmptyProgress(g: Gmail, scan: Scan, rows: map<string, Row>)
    ensures Progress(g, scan, rows, rows, Counts([], 0, 0, 0), {})
  {
  }

  lemma RowMoves(g: Gmail, scan: Scan, before: map<string, Row>, was: map<string, Row>, now: map<string, Row>,
                 done: set<string>, id: string)
    requires forall x :: Get(was, x) == if x in done then Synced(g, scan, x, Get(before, x)).row else Get(before, x)
    requires id !in done && Becomes(was, now, id, Synced(g, scan, id, Get(was, id)).row)
    ensures forall x :: Get(now, x)
                        == if x in done + {id} then Synced(g, scan, x, Get(before, x)).row else Get(before, x)
  {
    hide Synced, Get;
    forall x
      ensures Get(now, x) == if x in done + {id} then Synced(g, scan, x, Get(before, x)).row else Get(before, x)
    {
      assert Get(was, x) == if x in done then Synced(g, scan, x, Get(before, x)).row else Get(before, x);
    }
  }

  lemma ProgressStep(g: Gmail, scan: Scan, before: map<string, Row>, was: map<string, Row>, now: map<string, Row>,
                     counts: Counts, done: set<string>, id: string)
    requires Progress(g, scan, before, was, counts, done) && id !in done
    requires Becomes(was, now, id, Synced(g, scan, id, Get(was, id)).row)
    ensures var verdict := Synced(g, scan, id, Get(was, id)).verdict;
            Progress(g, scan, before, now, if verdict.Some? then counts.Note(id, verdict.value) else counts, done + {id})
  {
    hide Synced, Get, Counted, Distinct, Becomes;
    assert Get(was, id) == Get(before, id);
    RowMoves(g, scan, before, was, now, done, id);
    var verdict := Synced(g, scan, id, Get(was, id)).verdict;
    if verdict.Some? {
      CountsOne(g, scan, before, counts, id, verdict.value);
      DistinctAppend(counts.recorded, id);
      NotedOnce(counts, id, verdict.value);
    }
  }

  lemma NotedOnce(counts: Counts, id: string, verdict: Verdict)
    ensures counts.Note(id, verdict).recorded == counts.recorded + [id]
  {
  }

  /** A thread neither stored nor found is nothing to a sync. */
  lemma DoneCovers(g: Gmail, scan: Scan, before: map<string, Row>, rows: map<string, Row>, counts: Counts, done: set<string>)
    requires Progress(g, scan, before, rows, counts, done) && before.Keys + scan.attribution.Keys <= done
    ensures forall id :: Get(rows, id) == Synced(g, scan, id, Get(before, id)).row
    ensures forall id :: id in counts.recorded <==> Synced(g, scan, id, Get(before, id)).verdict.Some?
  {
    forall id | id !in done
      ensures Synced(g, scan, id, Get(before, id)) == Outcome(None, None)
    {
    }
  }

  ghost predicate Judged(g: Gmail, scan: Scan, rows: map<string, Row>, ids: seq<string>) {
    forall id :: id in ids ==> Synced(g, scan, id, Get(rows, id)).verdict.Some?
  }

  /** Every recorded thread is counted under exactly one verdict. */
  lemma {:induction false} TalliesPartition(g: Gmail, scan: Scan, rows: map<string, Row>, ids: seq<string>)
    requires Judged(g, scan, rows, ids)
    ensures Tally(g, scan, rows, ids, Created) + Tally(g, scan, rows, ids, Updated)
            + Tally(g, scan, rows, ids, Unchanged) == |ids|
  {
    if ids != [] {
      TalliesPartition(g, scan, rows, ids[..|ids| - 1]);
      assert ids[|ids| - 1] in ids;
    }
  }

  /** What a sync over rows already synced against the same mailbox would count. */
  lemma {:induction false} SettledTally(g: Gmail, scan: Scan, before: map<string, Row>, after: map<string, Row>, ids: seq<string>)
    requires forall id :: id in scan.attribution ==> g.Fetch(id).Found?
    requires forall id :: Get(after, id) == Synced(g, scan, id, Get(before, id)).row
    ensures Tally(g, scan, after, ids, Created) == 0 && Tally(g, scan, after, ids, Updated) == 0
  {
    if ids != [] {
      SettledTally(g, scan, before, after, ids[..|ids| - 1]);
      var id := ids[|ids| - 1];
      SyncAgainChangesNothing(g, scan, id, Get(before, id));
    }
  }

  lemma KeptAndRetired(rows: map<string, Row>, retired: set<string>)
    requires retired <= rows.Keys
    ensures |rows| == |rows - retired| + |retired|
  {
    var kept := rows - retired;
    assert rows.Keys == kept.Keys + retired;
    assert |rows| == |rows.Keys| && |kept| == |kept.Keys|;
  }

  /** The recorded threads a sync has to ask about, because its searches did not return them. */
  function StaleIds(scan: Scan, rows: map<string, Row>): set<string> {
    set id | id in rows && id !in scan.attribution && Stale(scan.watched, rows[id])
  }

  /** Reading what was found moved no row that was not found. */
  lemma StaleIsAsBefore(g: Gmail, scan: Scan, before: map<string, Row>, rows: map<string, Row>, counts: Counts)
    requires Progress(g, scan, before, rows, counts, scan.attribution.Keys)
    ensures StaleIds(scan, rows) == StaleIds(scan, before)
  {
    hide Synced, Stale, Counted, Distinct;
    forall id | id !in scan.attribution
      ensures (id in rows <==> id in before) && (id in rows ==> rows[id] == before[id])
    {
      assert Get(rows, id) == Get(before, id);
    }
  }

  /** A recorded thread neither found nor stale is left as it is by a sync, so it is done from the start. */
  lemma OthersAreDone(g: Gmail, scan: Scan, before: map<string, Row>, rows: map<string, Row>, counts: Counts)
    requires Progress(g, scan, before, rows, counts, scan.attribution.Keys)
    ensures Progress(g, scan, before, rows, counts, before.Keys + scan.attribution.Keys - StaleIds(scan, before))
  {
    forall id | id !in scan.attribution && id !in StaleIds(scan, before)
      ensures Synced(g, scan, id, Get(before, id)) == Outcome(Get(before, id), None)
    {
    }
    hide Synced, Stale, Counted, Distinct;
  }

  /** A stale thread not yet asked about is stored as it was, and rechecking it is what the sync does to it. */
  lemma StaleIsStored(g: Gmail, scan: Scan, before: map<string, Row>, rows: map<string, Row>, counts: Counts,
                      done: set<string>, id: string)
    requires Progress(g, scan, before, rows, counts, done) && id !in done
    requires id in StaleIds(scan, before) && !g.Fetch(id).Unreachable?
    ensures id in rows && rows[id] == before[id]
    ensures Synced(g, scan, id, Some(rows[id])) == RecheckedOutcome(scan, g.Fetch(id), rows[id])
    ensures RecheckedOutcome(scan, g.Fetch(id), rows[id]).row.Some?
  {
    assert Get(rows, id) == Get(before, id);
  }

  lemma OneFewer(all: set<string>, stale: set<string>, rest: set<string>, id: string)
    requires id in rest && rest <= stale <= all
    ensures all - rest + {id} == all - (rest - {id}) && stale - rest + {id} == stale - (rest - {id})
    ensures |rest - {id}| == |rest| - 1
  {
  }

  function Min(a: nat, b: nat): nat {
    if a <= b then a else b
  }

  class Table {
    var rows: map<string, Row>
    var classified: set<string>

    constructor ()
      ensures rows == map[] && classified == {}
    {
      rows, classified := map[], {};
    }

    /** A classification is about a thread that is still evidence. */
    ghost predicate Valid()
      reads this
    {
      classified <= rows.Keys
    }

    method RecordGmailThread(id: string, thread: Thread, keys: set<string>, snoozed: Option<bool>)
        returns (verdict: Verdict)
      modifies this`rows
      ensures var r := RecordThread(Get(old(rows), id), thread, keys, snoozed);
              rows == old(rows)[id := r.0] && verdict == r.1
    {
      if id !in rows {
        rows := rows[id := Row(thread.content, keys, Some(thread.labels), snoozed)];
        return Created;
      }
      var existing := rows[id];
      var same := existing.content == thread.content && existing.keys == keys;
      existing := existing.(labels := Some(thread.labels));
      if snoozed.Some? {
        existing := existing.(snoozed := snoozed);
      }
      if !same {
        existing := existing.(content := thread.content, keys := keys);
      }
      rows := rows[id := existing];
      verdict := if same then Unchanged else Updated;
    }

    method NoteThreadLabels(id: string, thread: Thread, snoozed: Option<bool>)
      modifies this`rows
      ensures rows == if id in old(rows) then old(rows)[id := NoteLabels(Get(old(rows), id), thread, snoozed).value]
                      else old(rows)
    {
      if id in rows {
        var existing := rows[id].(labels := Some(thread.labels));
        if snoozed.Some? {
          existing := existing.(snoozed := snoozed);
        }
        rows := rows[id := existing];
      }
    }

    method RecheckThread(g: Gmail, scan: Scan, id: string) returns (verdict: Option<Verdict>)
      requires id in rows && !g.Fetch(id).Unreachable?
      modifies this`rows
      ensures var o := RecheckedOutcome(scan, g.Fetch(id), old(rows)[id]);
              rows == old(rows)[id := o.row.value] && verdict == o.verdict
    {
      var evidence := rows[id];
      match g.Fetch(id) {
        case NotFound =>
          rows := rows[id := evidence.(labels := Some({}))];
          verdict := None;
        case Found(thread) =>
          var inScope := set key | key in Owners(scan, thread.labels) && key in scan.watched
                                   && scan.watched[key].Admits(Some(thread.labels), evidence.snoozed);
          if inScope == {} {
            rows := rows[id := evidence.(labels := Some(thread.labels))];
            verdict := None;
          } else {
            var v := RecordGmailThread(id, thread, inScope, None);
            verdict := Some(v);
          }
      }
    }

    /** Deletes every row not in the list, and the classifications of what it deletes. */
    method PruneGmailEvidence(live: seq<string>) returns (removed: nat)
      modifies this
      ensures rows == old(rows) - (old(rows).Keys - Elements(live))
      ensures classified == old(classified) - (old(rows).Keys - Elements(live))
      ensures removed == |old(rows)| - |rows|
    {
      var retired := set id | id in rows && id !in live;
      assert retired == rows.Keys - Elements(live);
      classified := classified - retired;
      removed := |retired|;
      KeptAndRetired(rows, retired);
      rows := rows - retired;
    }

    static method AddFound(before: Scan, key: string, ids: seq<string>) returns (scan: Scan)
      ensures scan == AddThreads(before, key, ids)
    {
      scan := before;
      for k := 0 to |ids|
        invariant scan == AddThreads(before, key, ids[..k])
      {
        assert ids[..k + 1][..k] == ids[..k];
        scan := AddThread(scan, key, ids[k]);
      }
      assert ids[..|ids|] == ids;
    }

    /** The searches of one sync, capability by capability and label by label. */
    static method SearchMailbox(g: Gmail, scope: Scope, capabilities: seq<Capability>, limit: nat) returns (scan: Scan)
      ensures scan == ScanAll(g, scope, capabilities, limit)
    {
      scan := Scan(map[], [], map[], map[], 0);
      var n := 0;
      while n < |capabilities|
        invariant n <= |capabilities| && scan == ScanAll(g, scope, capabilities[..n], limit)
      {
        var capability := capabilities[n];
        assert capabilities[..n + 1][..n] == capabilities[..n];
        var watched := CapabilityScope(scope, capability);
        scan := scan.(watched := scan.watched[capability.key := watched]);
        ghost var s0 := scan;
        var m := 0;
        while m < |capability.labels|
          invariant m <= |capability.labels|
          invariant scan == ScanLabels(s0, g, capability.key, watched, capability.labels[..m], limit)
        {
          var name := capability.labels[m];
          assert capability.labels[..m + 1][..m] == capability.labels[..m];
          if name !in g.labelIds {
            scan := scan.(incomplete := scan.incomplete + 1);
          } else {
            var labelId := g.labelIds[name];
            scan := AddOwner(scan, labelId, capability.key);
            var ids := g.ListThreadIds(watched.LabelIds(labelId), limit, watched.Query());
            if |ids| >= limit {
              scan := scan.(incomplete := scan.incomplete + 1);
            }
            scan := AddFound(scan, capability.key, ids);
          }
          m := m + 1;
        }
        assert capability.labels[..m] == capability.labels;
        n := n + 1;
      }
      assert capabilities[..n] == capabilities;
    }

    /** Reads one thread the searches found, and records it or notes where it is. */
    method ReadFoundThread(g: Gmail, scan: Scan, id: string) returns (verdict: Option<Verdict>)
      requires id in scan.attribution && g.Fetch(id).Found?
      modifies this`rows
      ensures var o := Synced(g, scan, id, Get(old(rows), id));
              Becomes(old(rows), rows, id, o.row) && verdict == o.verdict
    {
      var thread := g.Fetch(id).thread;
      var keys := scan.attribution[id];
      var observed := ObservedSnooze(scan.watched, keys);
      var inScope := InScope(scan.watched, keys, thread.labels);
      if inScope == {} {
        NoteThreadLabels(id, thread, observed);
        verdict := None;
      } else {
        var v := RecordGmailThread(id, thread, inScope, observed);
        verdict := Some(v);
      }
    }

    /** Reads every thread the searches found. */
    method ReadFoundThreads(g: Gmail, scan: Scan) returns (counts: Counts, failed: bool)
      requires WellFormed(scan)
      modifies this`rows
      ensures !failed ==> Progress(g, scan, old(rows), rows, counts, scan.attribution.Keys)
      ensures failed <==> exists id :: id in scan.attribution && !g.Fetch(id).Found?
    {
      hide Synced, Tally;
      counts, failed := Counts([], 0, 0, 0), false;
      EmptyProgress(g, scan, rows);
      var n := 0;
      while n < |scan.order|
        invariant n <= |scan.order|
        invariant forall k :: 0 <= k < n ==> g.Fetch(scan.order[k]).Found?
        invariant Progress(g, scan, old(rows), rows, counts, Elements(scan.order[..n]))
      {
        var id := scan.order[n];
        assert id !in scan.order[..n];
        assert Elements(scan.order[..n + 1]) == Elements(scan.order[..n]) + {id} by {
          assert scan.order[..n + 1] == scan.order[..n] + [id];
        }
        if !g.Fetch(id).Found? {
          assert id in scan.order;
          failed := true;
          return;
        }
        ghost var was := rows;
        var verdict := ReadFoundThread(g, scan, id);
        ProgressStep(g, scan, old(rows), was, rows, counts, Elements(scan.order[..n]), id);
        if verdict.Some? {
          counts := counts.Note(id, verdict.value);
        }
        n := n + 1;
      }
      assert Elements(scan.order[..n]) == scan.attribution.Keys;
    }

    method RecheckStaleThread(g: Gmail, scan: Scan, id: string, ghost before: map<string, Row>, counted: Counts,
                              ghost done: set<string>)
        returns (counts: Counts)
      requires Progress(g, scan, before, rows, counted, done) && id !in done
      requires id in StaleIds(scan, before) && !g.Fetch(id).Unreachable?
      modifies this`rows
      ensures Progress(g, scan, before, rows, counts, done + {id})
    {
      StaleIsStored(g, scan, before, rows, counted, done, id);
      hide Synced, Progress, StaleIds;
      ghost var was := rows;
      var verdict := RecheckThread(g, scan, id);
      ProgressStep(g, scan, before, was, rows, counted, done, id);
      counts := if verdict.Some? then counted.Note(id, verdict.value) else counted;
    }

    /** Asks about recorded rows the searches did not return, up to the limit. */
    method RecheckStaleThreads(g: Gmail, scan: Scan, limit: nat, ghost before: map<string, Row>, found: Counts)
        returns (counts: Counts, failed: bool, truncated: bool, ghost done: set<string>)
      requires Progress(g, scan, before, rows, found, scan.attribution.Keys)
      modifies this`rows
      ensures !failed ==> Progress(g, scan, before, rows, counts, done)
      ensures !failed && !truncated ==> before.Keys + scan.attribution.Keys <= done
      ensures !failed && !truncated ==> forall id :: id in StaleIds(scan, before) ==> !g.Fetch(id).Unreachable?
      ensures failed ==> !truncated && exists id :: id in StaleIds(scan, before) && g.Fetch(id).Unreachable?
      ensures !failed ==> (truncated <==> |StaleIds(scan, before)| > limit)
    {
      StaleIsAsBefore(g, scan, before, rows, found);
      OthersAreDone(g, scan, before, rows, found);
      ghost var stale := StaleIds(scan, before);
      ghost var all := before.Keys + scan.attribution.Keys;
      var rest := StaleIds(scan, rows);
      counts, failed, truncated := found, false, false;
      done := all - rest;
      hide Synced, Tally, Progress, Stale, StaleIds;
      var rechecked := 0;
      while rest != {}
        invariant rest <= stale <= all && done == all - rest
        invariant rechecked <= limit && rechecked + |rest| == |stale|
        invariant Progress(g, scan, before, rows, counts, done)
        invariant forall id :: id in stale - rest ==> !g.Fetch(id).Unreachable?
      {
        if rechecked >= limit {
          truncated := true;
          return;
        }
        var id :| id in rest;
        if g.Fetch(id).Unreachable? {
          failed := true;
          return;
        }
        rechecked := rechecked + 1;
        counts := RecheckStaleThread(g, scan, id, before, counts, done);
        OneFewer(all, stale, rest, id);
        rest := rest - {id};
        done := done + {id};
      }
    }

    /** Everything a sync does before it prunes: search, read, recheck, and refuse what was missed. */
    method ScanAndRecheck(g: Gmail, scan: Scan, limit: nat, prune: bool)
        returns (r: Result, ghost done: set<string>)
      requires WellFormed(scan)
      modifies this`rows
      ensures r.Refused? ==> rows == old(rows)
      ensures r.Done? ==>
                && r.removed == 0
                && Progress(g, scan, old(rows), rows, r.counts, done)
                && (prune ==> !r.truncated && scan.incomplete == 0)
                && (!r.truncated ==> Readable(g, scan, old(rows)) && old(rows).Keys + scan.attribution.Keys <= done)
                && (r.truncated <==> |StaleIds(scan, old(rows))| > limit)
      ensures RefusedFor(g, scan, old(rows), limit, prune, r)
    {
      done := {};
      var before := rows;
      if prune && scan.incomplete > 0 {
        return Refused(PruneScanTruncated), {};
      }
      var found, failed := ReadFoundThreads(g, scan);
      if failed {
        rows := before;
        return Refused(GmailFailed), {};
      }
      var counts, truncated;
      counts, failed, truncated, done := RecheckStaleThreads(g, scan, limit, before, found);
      if failed {
        rows := before;
        return Refused(GmailFailed), {};
      }
      if prune && truncated {
        rows := before;
        return Refused(PruneScanTruncated), {};
      }
      return Done(counts, 0, truncated), done;
    }

    method SyncGmailEvidence(g: Gmail, scope: Scope, capabilities: seq<Capability>, limit: nat, prune: bool)
        returns (r: Result)
      requires Valid()
      modifies this
      ensures Valid()
      ensures r.Refused? ==> rows == old(rows) && classified == old(classified)
      ensures r.Done? ==>
                SyncedTo(g, ScanAll(g, scope, capabilities, Min(limit, MAX_SYNC_LIMIT)), old(rows), rows, r, prune)
      ensures r.Done? && !prune ==> classified == old(classified)
      ensures r == Refused(PruneScopeRefused) <==> prune && scope.name != DEFAULT_SCOPE.name
      ensures var effective := Min(limit, MAX_SYNC_LIMIT);
              var scan := ScanAll(g, scope, capabilities, effective);
              && (r != Refused(PruneScopeRefused) ==> RefusedFor(g, scan, old(rows), effective, prune, r))
              && (r != Refused(PruneScopeRefused) && |StaleIds(scan, old(rows))| <= effective ==>
                    (r.Done? <==> Readable(g, scan, old(rows)) && (prune ==> scan.incomplete == 0)))
              && (r.Done? ==> (r.truncated <==> |StaleIds(scan, old(rows))| > effective))
    {
      if prune && scope.name != DEFAULT_SCOPE.name {
        return Refused(PruneScopeRefused);
      }
      var effective := Min(limit, MAX_SYNC_LIMIT);
      var scan := SearchMailbox(g, scope, capabilities, effective);
      ScanAllCovers(g, scope, capabilities, effective);
      hide ScanAll;
      ghost var done;
      r, done := ScanAndRecheck(g, scan, effective, prune);
      if r.Refused? {
        return;
      }
      SyncKeepsRows(g, scan, old(rows), rows, r.counts, done);
      SyncLeaves(g, scan, old(rows), rows, r, done, prune);
      hide Synced, Progress, SyncedTo;
      if prune {
        var removed := PruneGmailEvidence(r.counts.recorded);
        r := r.(removed := removed);
      }
    }
  }

  /** Why a sync past its scope check is refused: unread mail, or a prune of what was not all seen. */
  ghost predicate RefusedFor(g: Gmail, scan: Scan, rows: map<string, Row>, limit: nat, prune: bool, r: Result) {
    && (prune && scan.incomplete > 0 ==> r == Refused(PruneScanTruncated))
    && (r.Refused? ==>
          || (r.why.PruneScanTruncated? && prune && (scan.incomplete > 0 || |StaleIds(scan, rows)| > limit))
          || (r.why.GmailFailed? && !Readable(g, scan, rows)))
    && (r.Done? ==> forall id :: id in scan.attribution ==> g.Fetch(id).Found?)
  }

  lemma SyncLeaves(g: Gmail, scan: Scan, before: map<string, Row>, rows: map<string, Row>, r: Result,
                   done: set<string>, prune: bool)
    requires r.Done? && r.removed == 0 && Progress(g, scan, before, rows, r.counts, done)
    requires prune ==> !r.truncated && scan.incomplete == 0
    requires !r.truncated ==> Readable(g, scan, before) && before.Keys + scan.attribution.Keys <= done
    ensures !prune ==> SyncedTo(g, scan, before, rows, r, prune)
    ensures prune ==> forall removed: nat ::
              SyncedTo(g, scan, before, rows - (rows.Keys - Elements(r.counts.recorded)), r.(removed := removed), prune)
  {
    SyncKeepsRows(g, scan, before, rows, r.counts, done);
    if !r.truncated {
      DoneCovers(g, scan, before, rows, r.counts, done);
    }
    hide Synced, Progress;
    var after := rows - (rows.Keys - Elements(r.counts.recorded));
    assert after.Keys == Elements(r.counts.recorded);
    forall id | id in after
      ensures Some(after[id]) == Synced(g, scan, id, Get(before, id)).row
    {
      assert Get(rows, id) == Some(after[id]);
    }
  }

  /** What a sync that was not refused leaves behind. */
  ghost predicate SyncedTo(g: Gmail, scan: Scan, before: map<string, Row>, after: map<string, Row>, r: Result, prune: bool)
    requires r.Done?
  {
    && Distinct(r.counts.recorded)
    && Judged(g, scan, before, r.counts.recorded)
    && Counted(g, scan, before, r.counts)
    && (!r.truncated ==>
          && Readable(g, scan, before)
          && forall id :: id in r.counts.recorded <==> Synced(g, scan, id, Get(before, id)).verdict.Some?)
    && (!prune ==>
          && r.removed == 0
          && (forall id :: Get(after, id) == Get(before, id) || Get(after, id) == Synced(g, scan, id, Get(before, id)).row)
          && (!r.truncated ==> forall id :: Get(after, id) == Synced(g, scan, id, Get(before, id)).row))
    && (prune ==>
          && !r.truncated && scan.incomplete == 0
          && after.Keys == Elements(r.counts.recorded)
          && forall id :: id in after ==> Some(after[id]) == Synced(g, scan, id, Get(before, id)).row)
  }

  lemma SyncKeepsRows(g: Gmail, scan: Scan, before: map<string, Row>, rows: map<string, Row>, counts: Counts, done: set<string>)
    requires Progress(g, scan, before, rows, counts, done)
    ensures before.Keys <= rows.Keys && Elements(counts.recorded) <= rows.Keys
    ensures forall id :: Get(rows, id) == Get(before, id) || Get(rows, id) == Synced(g, scan, id, Get(before, id)).row
    ensures forall id :: id in counts.recorded ==> Get(rows, id) == Synced(g, scan, id, Get(before, id)).row
    ensures Distinct(counts.recorded) && Judged(g, scan, before, counts.recorded) && Counted(g, scan, before, counts)
  {
    forall id
      ensures Get(before, id).Some? ==> Synced(g, scan, id, Get(before, id)).row.Some?
      ensures Synced(g, scan, id, Get(before, id)).verdict.Some? ==> Synced(g, scan, id, Get(before, id)).row.Some?
    {
    }
    hide Synced;
    forall id | id in before || id in counts.recorded
      ensures id in rows
    {
      assert Get(rows, id).Some?;
    }
  }

  // ---------------------------------------------------------------- what that means

  /** What a row pruned away would be on the next sync: nothing, or it would not have been pruned. */
  lemma PrunedStaysOut(g: Gmail, scan: Scan, id: string, stored: Option<Row>)
    requires id in scan.attribution ==> g.Fetch(id).Found?
    requires Synced(g, scan, id, stored).verdict.None?
    ensures Synced(g, scan, id, None).verdict.None?
  {
  }

  lemma {:induction false} PrunedTally(g: Gmail, scan: Scan, before: map<string, Row>, after: map<string, Row>, r: Result, ids: seq<string>)
    requires r.Done? && SyncedTo(g, scan, before, after, r, true)
    ensures Tally(g, scan, after, ids, Created) == 0 && Tally(g, scan, after, ids, Updated) == 0
  {
    if ids != [] {
      PrunedTally(g, scan, before, after, r, ids[..|ids| - 1]);
      var id := ids[|ids| - 1];
      if id in after {
        SyncAgainChangesNothing(g, scan, id, Get(before, id));
      } else {
        PrunedStaysOut(g, scan, id, Get(before, id));
      }
      hide Synced;
    }
  }

  /**
   After any sync that saw everything, pruning or not, no row a review could be shown is out of
   date; each thread read was recorded once and counted once; and syncing again over the same
   mailbox would create nothing and update nothing.
   */
  lemma SyncAgrees(g: Gmail, scan: Scan, before: map<string, Row>, after: map<string, Row>, r: Result, prune: bool, again: seq<string>)
    requires r.Done? && !r.truncated && SyncedTo(g, scan, before, after, r, prune)
    ensures forall id :: id in after && AdmittedBy(scan.watched, after[id]) ==> after[id].labels == Some(LabelsNow(g, id))
    ensures |r.counts.recorded| == r.counts.created + r.counts.updated + r.counts.same
    ensures Tally(g, scan, after, again, Created) == 0 && Tally(g, scan, after, again, Updated) == 0
  {
    forall id | id in after && AdmittedBy(scan.watched, after[id])
      ensures after[id].labels == Some(LabelsNow(g, id))
    {
      assert Get(after, id) == Some(after[id]);
      SyncedRowsAreCurrent(g, scan, id, Get(before, id));
    }
    TalliesPartition(g, scan, before, r.counts.recorded);
    if prune {
      PrunedTally(g, scan, before, after, r, again);
    } else {
      SettledTally(g, scan, before, after, again);
    }
    hide Synced, Tally;
  }

  /** A prune keeps exactly what was recorded, and so every thread the search and scope put in scope. */
  lemma PruneKeepsScope(g: Gmail, scope: Scope, capabilities: seq<Capability>, limit: nat, before: map<string, Row>,
                        after: map<string, Row>, r: Result, capability: Capability, name: string, id: string)
    requires r.Done? && SyncedTo(g, ScanAll(g, scope, capabilities, limit), before, after, r, true)
    requires capability in capabilities && FoundBy(g, scope, capability, name, limit, id)
    requires var s := ScanAll(g, scope, capabilities, limit);
             capability.key in s.watched &&
             s.watched[capability.key].Admits(Some(LabelsNow(g, id)), s.watched[capability.key].ObservedSnoozed())
    ensures id in after && capability.key in after[id].keys && after[id].labels == Some(LabelsNow(g, id))
  {
    var s := ScanAll(g, scope, capabilities, limit);
    ScanAllCovers(g, scope, capabilities, limit);
    InScopeIsRecorded(g, scope, capabilities, limit, capability, name, id, Get(before, id));
    assert id in r.counts.recorded;
  }
}
