/**
 Playbook revisions: seeding, falling back, proposing and confirming. Each operation is one
 transaction, so it gives the new table or, where the source raises, nothing at all.
 */
module PlaybookStore {
  import opened Common
  import opened Playbook
  import opened PlaybookValidation

  datatype Status = Proposed | Active | Superseded | Invalid

  /** `changes` and `against` keep the request a proposal was written from. */
  datatype Revision = Revision(
    playbookId: string,
    number: nat,
    status: Status,
    document: Document,
    valid: bool,
    activatedAt: Option<int>,
    supersededAt: Option<int>,
    basedOn: Option<nat>,
    changes: seq<Change>,
    against: Loaded)

  /** A revision's id is its index: rows are added and never removed. */
  type Table = seq<Revision>

  predicate InForce(r: Revision, p: string) {
    r.playbookId == p && r.status.Active?
  }

  predicate OnceInForce(r: Revision, p: string) {
    r.playbookId == p && (r.status.Superseded? || r.status.Active?)
  }

  /** The highest-numbered of the rows chosen. */
  function Newest(t: Table, chosen: Revision -> bool): (best: Option<nat>)
    ensures best.Some? ==> best.value < |t| && chosen(t[best.value])
    ensures best.Some? ==> forall i :: 0 <= i < |t| && chosen(t[i]) ==> t[i].number <= t[best.value].number
    ensures best.None? ==> forall i :: 0 <= i < |t| ==> !chosen(t[i])
  {
    if t == [] then None
    else
      var last := |t| - 1;
      var front := Newest(t[..last], chosen);
      if chosen(t[last]) && (front.None? || t[front.value].number <= t[last].number) then Some(last) else front
  }

  function ReadStatus(t: Table, p: string): Option<nat> {
    Newest(t, (r: Revision) => InForce(r, p))
  }

  function LastValid(t: Table, loaded: Loaded, p: string): Option<nat> {
    Newest(t, (r: Revision) => OnceInForce(r, p) && Valid(r.document, loaded))
  }

  function HighestNumber(t: Table, p: string): (n: nat)
    ensures forall i :: 0 <= i < |t| && t[i].playbookId == p ==> t[i].number <= n
  {
    if t == [] then 0
    else
      var front, last := HighestNumber(t[..|t| - 1], p), t[|t| - 1];
      if last.playbookId == p && front < last.number then last.number else front
  }

  datatype Read = Refused | Read(table: Table, active: nat)

  function Seeded(p: string, seed: Document, loaded: Loaded, now: int): Revision {
    Revision(p, 1, Active, seed, true, Some(now), None, None, [], loaded)
  }

  function FallBack(t: Table, active: nat, loaded: Loaded, p: string, now: int): (r: Read)
    requires active < |t|
    ensures r.Read? ==> r.active < |r.table|
  {
    var marked := t[active := t[active].(status := Invalid, valid := false)];
    var restored := LastValid(marked, loaded, p);
    if restored.None? then Refused
    else
      var r := marked[restored.value].(status := Active, activatedAt := Some(now), supersededAt := None);
      Read(marked[restored.value := r], restored.value)
  }

  function ReadActivePlaybook(t: Table, loaded: Loaded, p: string, seed: Document, now: int): (r: Read)
    ensures r.Read? ==> r.active < |r.table|
  {
    var active := ReadStatus(t, p);
    if active.None? then
      if Valid(seed, loaded) then Read(t + [Seeded(p, seed, loaded, now)], |t|) else Refused
    else if Valid(t[active.value].document, loaded) then Read(t, active.value)
    else FallBack(t, active.value, loaded, p, now)
  }

  function Proposal(t: Table, active: nat, p: string, document: Document, changes: seq<Change>, loaded: Loaded): Revision {
    Revision(p, HighestNumber(t, p) + 1, Proposed, document, Valid(document, loaded), None, None, Some(active),
             changes, loaded)
  }

  function ProposeChange(t: Table, loaded: Loaded, changes: seq<Change>, p: string, seed: Document, now: int): Read {
    var read := ReadActivePlaybook(t, loaded, p, seed, now);
    if read.Refused? then Refused
    else
      var changed := ApplyChanges(read.table[read.active].document, changes, loaded);
      if changed.None? then Refused
      else Read(read.table + [Proposal(read.table, read.active, p, changed.value, changes, loaded)], |read.table|)
  }

  function ConfirmRevision(t: Table, loaded: Loaded, id: nat, now: int): Read {
    if id >= |t| || t[id].status.Active? || !Valid(t[id].document, loaded) then Refused
    else
      var r := t[id];
      var current := ReadStatus(t, r.playbookId);
      if r.status.Proposed? && current.Some? && r.basedOn.Some? && r.basedOn != current then Refused
      else
        var aside := if current.None? then t
                     else t[current.value := t[current.value].(status := Superseded, supersededAt := Some(now))];
        Read(aside[id := r.(status := Active, valid := true, activatedAt := Some(now), supersededAt := None)], id)
  }

  // ---------------------------------------------------------------- runs

  datatype Command =
    | DoRead(loaded: Loaded, playbookId: string, seed: Document, now: int)
    | DoPropose(loaded: Loaded, changes: seq<Change>, playbookId: string, seed: Document, now: int)
    | DoConfirm(loaded: Loaded, id: nat, now: int)

  function Perform(t: Table, c: Command): Read {
    match c
    case DoRead(loaded, p, seed, now) => ReadActivePlaybook(t, loaded, p, seed, now)
    case DoPropose(loaded, changes, p, seed, now) => ProposeChange(t, loaded, changes, p, seed, now)
    case DoConfirm(loaded, id, now) => ConfirmRevision(t, loaded, id, now)
  }

  /** A step either commits or leaves the table as it was. */
  function Step(t: Table, c: Command): Table {
    var r := Perform(t, c);
    if r.Refused? then t else r.table
  }

  function Run(t: Table, cs: seq<Command>): Table
    decreases |cs|
  {
    if cs == [] then t else Run(Step(t, cs[0]), cs[1..])
  }

  ghost predicate OneActive(t: Table, p: string) {
    (exists i :: 0 <= i < |t| && t[i].playbookId == p) ==>
      exists i :: 0 <= i < |t| && InForce(t[i], p) && forall j :: 0 <= j < |t| && InForce(t[j], p) ==> j == i
  }

  ghost predicate NumbersDistinct(t: Table) {
    forall i, j :: 0 <= i < j < |t| && t[i].playbookId == t[j].playbookId ==> t[i].number != t[j].number
  }

  /** A proposal is its changes worked through the document of the revision it names. */
  ghost predicate ProposalsDerive(t: Table) {
    forall i :: 0 <= i < |t| && t[i].status.Proposed? ==>
      && t[i].basedOn.Some? && t[i].basedOn.value < |t|
      && t[t[i].basedOn.value].playbookId == t[i].playbookId
      && ApplyChanges(t[t[i].basedOn.value].document, t[i].changes, t[i].against) == Some(t[i].document)
  }

  ghost predicate Sound(t: Table) {
    NumbersDistinct(t) && ProposalsDerive(t) && forall p :: OneActive(t, p)
  }

  /** Rows stay, and what they say of themselves stays. */
  ghost predicate Keeps(t: Table, u: Table) {
    |t| <= |u| && forall i :: 0 <= i < |t| ==>
      && u[i].document == t[i].document && u[i].number == t[i].number && u[i].playbookId == t[i].playbookId
      && u[i].basedOn == t[i].basedOn && u[i].changes == t[i].changes && u[i].against == t[i].against
      && (u[i].status.Proposed? ==> t[i].status.Proposed?)
  }

  lemma CurrentIsTheActive(t: Table, p: string, i: nat)
    requires OneActive(t, p) && i < |t| && InForce(t[i], p)
    ensures ReadStatus(t, p) == Some(i)
  {
  }

  lemma ActiveExists(t: Table, p: string, i: nat)
    requires OneActive(t, p) && i < |t| && t[i].playbookId == p
    ensures ReadStatus(t, p).Some?
  {
  }

  ghost predicate SoleActive(t: Table, p: string, i: nat) {
    i < |t| && InForce(t[i], p) && forall j :: 0 <= j < |t| && InForce(t[j], p) ==> j == i
  }

  /** Between the two tables, playbook `p` is untouched. */
  lemma OthersUntouched(t: Table, u: Table, p: string)
    requires OneActive(t, p) && |t| <= |u|
    requires forall i :: 0 <= i < |t| ==> u[i].playbookId == t[i].playbookId
    requires forall i :: 0 <= i < |t| && t[i].playbookId == p ==> u[i].status == t[i].status
    requires forall i :: |t| <= i < |u| ==> u[i].playbookId != p || !u[i].status.Active?
    requires (exists i :: |t| <= i < |u| && u[i].playbookId == p) ==> exists i :: 0 <= i < |t| && t[i].playbookId == p
    ensures OneActive(u, p)
  {
    if exists i :: 0 <= i < |t| && t[i].playbookId == p {
      var a :| 0 <= a < |t| && InForce(t[a], p) && forall j :: 0 <= j < |t| && InForce(t[j], p) ==> j == a;
      assert SoleActive(u, p, a);
    }
  }

  /** `from` steps down and `to`, of the same playbook, takes its place; the rest is as it was. */
  ghost predicate HandsOver(t: Table, u: Table, from: nat, to: nat) {
    && from < |t| && to < |t| && from != to && |u| == |t|
    && InForce(t[from], t[to].playbookId)
    && u[to].status.Active? && !u[from].status.Active? && !u[from].status.Proposed?
    && (forall i :: 0 <= i < |t| && i != from && i != to ==> u[i] == t[i])
    && Keeps(t, u)
  }

  lemma HandOverKeepsOne(t: Table, u: Table, from: nat, to: nat, p: string)
    requires OneActive(t, p) && HandsOver(t, u, from, to)
    ensures OneActive(u, p)
  {
    if p == t[to].playbookId {
      assert InForce(t[from], p);
      assert SoleActive(u, p, to);
    } else {
      OthersUntouched(t, u, p);
    }
  }

  lemma HandOverKeepsProposals(t: Table, u: Table, from: nat, to: nat)
    requires ProposalsDerive(t) && HandsOver(t, u, from, to)
    ensures ProposalsDerive(u)
  {
    hide ApplyChanges;
    forall i | 0 <= i < |u| && u[i].status.Proposed?
      ensures && u[i].basedOn.Some? && u[i].basedOn.value < |u|
              && u[u[i].basedOn.value].playbookId == u[i].playbookId
              && ApplyChanges(u[u[i].basedOn.value].document, u[i].changes, u[i].against) == Some(u[i].document)
    {
      assert u[i] == t[i];
    }
  }

  lemma HandOver(t: Table, u: Table, from: nat, to: nat)
    requires Sound(t) && HandsOver(t, u, from, to)
    ensures Sound(u)
  {
    HandOverKeepsProposals(t, u, from, to);
    forall p
      ensures OneActive(u, p)
    {
      HandOverKeepsOne(t, u, from, to, p);
    }
    hide ProposalsDerive, OneActive;
  }

  /** A row added with a number past every other of its playbook. */
  ghost predicate Addable(t: Table, r: Revision) {
    && (forall i :: 0 <= i < |t| && t[i].playbookId == r.playbookId ==> t[i].number < r.number)
    && (r.status.Active? ==> forall i :: 0 <= i < |t| ==> t[i].playbookId != r.playbookId)
    && (r.status.Active? || exists i :: 0 <= i < |t| && t[i].playbookId == r.playbookId)
    && (r.status.Proposed? ==>
          && r.basedOn.Some? && r.basedOn.value < |t|
          && t[r.basedOn.value].playbookId == r.playbookId
          && ApplyChanges(t[r.basedOn.value].document, r.changes, r.against) == Some(r.document))
  }

  lemma AddedKeepsProposals(t: Table, r: Revision)
    requires ProposalsDerive(t) && Addable(t, r)
    ensures ProposalsDerive(t + [r])
  {
    hide ApplyChanges;
    var u := t + [r];
    forall i | 0 <= i < |u| && u[i].status.Proposed?
      ensures && u[i].basedOn.Some? && u[i].basedOn.value < |u|
              && u[u[i].basedOn.value].playbookId == u[i].playbookId
              && ApplyChanges(u[u[i].basedOn.value].document, u[i].changes, u[i].against) == Some(u[i].document)
    {
      if i < |t| {
        assert u[i] == t[i];
      }
    }
  }

  lemma Added(t: Table, r: Revision)
    requires Sound(t) && Addable(t, r)
    ensures Sound(t + [r]) && Keeps(t, t + [r])
  {
    AddedKeepsProposals(t, r);
    hide ProposalsDerive, ApplyChanges;
    forall p
      ensures OneActive(t + [r], p)
    {
      assert OneActive(t, p);
      if p == r.playbookId && r.status.Active? {
        assert SoleActive(t + [r], p, |t|);
      } else {
        OthersUntouched(t, t + [r], p);
      }
    }
  }

  lemma ReadIsSound(t: Table, loaded: Loaded, p: string, seed: Document, now: int)
    requires Sound(t)
    ensures var r := ReadActivePlaybook(t, loaded, p, seed, now);
            r.Read? ==>
              && Sound(r.table) && Keeps(t, r.table)
              && r.active < |r.table| && InForce(r.table[r.active], p)
              && Valid(r.table[r.active].document, loaded)
  {
    hide Valid, ApplyChanges;
    var active := ReadStatus(t, p);
    assert OneActive(t, p);
    if active.None? {
      Added(t, Seeded(p, seed, loaded, now));
    } else if !Valid(t[active.value].document, loaded) {
      var a := active.value;
      var marked := t[a := t[a].(status := Invalid, valid := false)];
      var restored := LastValid(marked, loaded, p);
      if restored.Some? {
        var b := restored.value;
        var r := ReadActivePlaybook(t, loaded, p, seed, now);
        assert HandsOver(t, r.table, a, b);
        HandOver(t, r.table, a, b);
      }
    }
  }

  lemma ProposalIsAddable(t: Table, active: nat, p: string, document: Document, changes: seq<Change>, loaded: Loaded)
    requires active < |t| && t[active].playbookId == p
    requires ApplyChanges(t[active].document, changes, loaded) == Some(document)
    ensures Addable(t, Proposal(t, active, p, document, changes, loaded))
  {
    hide Valid, ApplyChanges;
  }

  lemma ProposeIsSound(t: Table, loaded: Loaded, changes: seq<Change>, p: string, seed: Document, now: int)
    requires Sound(t)
    ensures var r := ProposeChange(t, loaded, changes, p, seed, now);
            r.Read? ==> Sound(r.table) && Keeps(t, r.table)
  {
    ReadIsSound(t, loaded, p, seed, now);
    var read := ReadActivePlaybook(t, loaded, p, seed, now);
    hide Addable, Sound, ReadActivePlaybook, Valid, ApplyChanges, Keeps;
    if read.Read? {
      var changed := ApplyChanges(read.table[read.active].document, changes, loaded);
      if changed.Some? {
        ProposalIsAddable(read.table, read.active, p, changed.value, changes, loaded);
        hide Proposal, Addable, Sound, ReadActivePlaybook, Valid, ApplyChanges;
        Added(read.table, Proposal(read.table, read.active, p, changed.value, changes, loaded));
      }
    }
    hide Proposal, Addable, Sound, ReadActivePlaybook, Valid, ApplyChanges;
  }

  lemma ConfirmIsSound(t: Table, loaded: Loaded, id: nat, now: int)
    requires Sound(t)
    ensures var r := ConfirmRevision(t, loaded, id, now);
            r.Read? ==> Sound(r.table) && Keeps(t, r.table)
  {
    hide Valid, ApplyChanges;
    if id < |t| && !t[id].status.Active? {
      var p := t[id].playbookId;
      assert OneActive(t, p);
      ActiveExists(t, p, id);
      var current := ReadStatus(t, p).value;
      var r := ConfirmRevision(t, loaded, id, now);
      if r.Read? {
        assert HandsOver(t, r.table, current, id);
        HandOver(t, r.table, current, id);
      }
    }
  }

  lemma StepIsSound(t: Table, c: Command)
    requires Sound(t)
    ensures Sound(Step(t, c)) && Keeps(t, Step(t, c))
  {
    match c
    case DoRead(loaded, p, seed, now) => ReadIsSound(t, loaded, p, seed, now);
    case DoPropose(loaded, changes, p, seed, now) => ProposeIsSound(t, loaded, changes, p, seed, now);
    case DoConfirm(loaded, id, now) => ConfirmIsSound(t, loaded, id, now);
    hide ReadActivePlaybook, ProposeChange, ConfirmRevision, Sound;
  }

  /**
   In every run, with capabilities changing arbitrarily between steps: every playbook that has
   a revision has exactly one active, its numbers are distinct, documents never change, and a
   proposal stays its changes applied to the revision it was written against.
   */
  lemma {:induction false} RunIsSound(t: Table, cs: seq<Command>)
    requires Sound(t)
    ensures Sound(Run(t, cs)) && Keeps(t, Run(t, cs))
    decreases |cs|
  {
    if cs != [] {
      StepIsSound(t, cs[0]);
      RunIsSound(Step(t, cs[0]), cs[1..]);
    }
  }

  /** A revision in force gave way to this one, whose document is its changes made to that one's. */
  ghost predicate Displaces(t: Table, after: Table, i: nat)
    requires i < |t| && i < |after|
  {
    exists j :: 0 <= j < |t| && j < |after| && InForce(t[j], t[i].playbookId) && after[j].status.Superseded?
                && ApplyChanges(t[j].document, t[i].changes, t[i].against) == Some(after[i].document)
  }

  /**
   No lost update: whenever a proposed revision becomes active, in whatever step, its document
   is its own changes applied to the document of the revision it displaces.
   */
  lemma NoLostUpdate(t: Table, c: Command, i: nat)
    requires Sound(t) && i < |t| && t[i].status.Proposed?
    requires i < |Step(t, c)| && Step(t, c)[i].status.Active?
    ensures Displaces(t, Step(t, c), i)
  {
    OnlyConfirmingActivates(t, c, i);
    ConfirmDisplaces(t, c.loaded, c.id, c.now, i);
    hide ConfirmRevision, ReadActivePlaybook, ProposeChange, Sound, Valid, ApplyChanges;
  }

  lemma OnlyConfirmingActivates(t: Table, c: Command, i: nat)
    requires i < |t| && t[i].status.Proposed? && i < |Step(t, c)| && Step(t, c)[i].status.Active?
    ensures c.DoConfirm? && ConfirmRevision(t, c.loaded, c.id, c.now).Read?
  {
    if !c.DoConfirm? {
      ReadLeavesProposals(t, c.loaded, c.playbookId, c.seed, c.now, i);
      hide ReadActivePlaybook, Valid, ApplyChanges;
    }
  }

  lemma ReadLeavesProposals(t: Table, loaded: Loaded, p: string, seed: Document, now: int, i: nat)
    requires i < |t| && t[i].status.Proposed?
    ensures var r := ReadActivePlaybook(t, loaded, p, seed, now);
            r.Read? ==> i < |r.table| && r.table[i] == t[i]
  {
    hide Valid;
  }

  lemma ConfirmDisplaces(t: Table, loaded: Loaded, id: nat, now: int, i: nat)
    requires Sound(t) && i < |t| && t[i].status.Proposed?
    requires var r := ConfirmRevision(t, loaded, id, now); r.Read? && i < |r.table| && r.table[i].status.Active?
    ensures var r := ConfirmRevision(t, loaded, id, now);
            exists j :: 0 <= j < |t| && InForce(t[j], t[i].playbookId) && r.table[j].status.Superseded?
              && ApplyChanges(t[j].document, t[i].changes, t[i].against) == Some(r.table[i].document)
  {
    hide Valid, ApplyChanges;
    assert id == i;
    assert OneActive(t, t[i].playbookId);
    ActiveExists(t, t[i].playbookId, i);
    var j := ReadStatus(t, t[i].playbookId).value;
    assert InForce(t[j], t[i].playbookId) && j != i;
  }

  /** A fall back restores the newest revision that was once in force and still validates. */
  lemma FallBackRestoresNewestWorking(t: Table, loaded: Loaded, p: string, seed: Document, now: int)
    requires Sound(t) && ReadStatus(t, p).Some?
    requires !Valid(t[ReadStatus(t, p).value].document, loaded)
    ensures var r := ReadActivePlaybook(t, loaded, p, seed, now);
            var was := ReadStatus(t, p).value;
            (r.Refused? <==> forall i :: 0 <= i < |t| && OnceInForce(t[i], p) ==> !Valid(t[i].document, loaded))
            && (r.Read? ==>
                  && |r.table| == |t| && r.active < |t| && r.active != was && t[r.active].status.Superseded?
                  && r.table[was] == t[was].(status := Invalid, valid := false)
                  && r.table[r.active] == t[r.active].(status := Active, activatedAt := Some(now), supersededAt := None)
                  && (forall i :: 0 <= i < |t| && i != was && i != r.active ==> r.table[i] == t[i])
                  && forall i :: 0 <= i < |t| && OnceInForce(t[i], p) && Valid(t[i].document, loaded) ==>
                       t[i].number <= t[r.active].number)
  {
    hide Valid, ApplyChanges;
    assert OneActive(t, p);
    var a := ReadStatus(t, p).value;
    var marked := t[a := t[a].(status := Invalid, valid := false)];
    forall i | 0 <= i < |t|
      ensures OnceInForce(t[i], p) && Valid(t[i].document, loaded) <==>
                OnceInForce(marked[i], p) && Valid(marked[i].document, loaded)
    {
    }
  }

  // ---------------------------------------------------------------- what each request comes to

  /** A read returns the revision in force, and writes nothing, as long as that revision works. */
  lemma WorkingIsRead(t: Table, loaded: Loaded, p: string, seed: Document, now: int, i: nat)
    requires Sound(t) && i < |t| && InForce(t[i], p) && Valid(t[i].document, loaded)
    ensures ReadActivePlaybook(t, loaded, p, seed, now) == Read(t, i)
  {
    assert OneActive(t, p);
    CurrentIsTheActive(t, p, i);
    hide Valid;
  }

  /** The first read of a playbook seeds it as revision 1, in force, exactly when the seed works. */
  lemma SeededExactlyWhen(t: Table, loaded: Loaded, p: string, seed: Document, now: int)
    requires forall i :: 0 <= i < |t| ==> t[i].playbookId != p
    ensures var r := ReadActivePlaybook(t, loaded, p, seed, now);
            && (r.Read? <==> Valid(seed, loaded))
            && (r.Read? ==>
                  && r.active == |t| && |r.table| == |t| + 1 && r.table[..|t|] == t
                  && var first := r.table[|t|];
                     && InForce(first, p) && first.number == 1 && first.document == seed && first.valid
                     && first.activatedAt == Some(now) && first.basedOn.None?)
  {
    hide Valid;
  }

  /**
   A proposal is written exactly when there is a playbook to read and its changes apply to it, and
   then as the next number, on the revision in force, saying whether it would work.
   */
  lemma ProposedExactlyWhen(t: Table, loaded: Loaded, changes: seq<Change>, p: string, seed: Document, now: int)
    requires Sound(t)
    ensures var read, r := ReadActivePlaybook(t, loaded, p, seed, now), ProposeChange(t, loaded, changes, p, seed, now);
            && (r.Read? <==> read.Read? && ApplyChanges(read.table[read.active].document, changes, loaded).Some?)
            && (r.Read? ==>
                  && r.active == |read.table| && |r.table| == |read.table| + 1 && r.table[..|read.table|] == read.table
                  && InForce(read.table[read.active], p)
                  && var next := r.table[r.active];
                     && next.playbookId == p && next.status.Proposed? && next.basedOn == Some(read.active)
                     && Some(next.document) == ApplyChanges(read.table[read.active].document, changes, loaded)
                     && (next.valid <==> Valid(next.document, loaded))
                     && (forall i :: 0 <= i < |read.table| && read.table[i].playbookId == p ==> read.table[i].number < next.number)
                     && exists i :: 0 <= i < |read.table| && read.table[i].playbookId == p
                                    && read.table[i].number + 1 == next.number)
  {
    ReadIsSound(t, loaded, p, seed, now);
    var read := ReadActivePlaybook(t, loaded, p, seed, now);
    hide ReadActivePlaybook, Sound, Keeps, Valid, ApplyChanges;
    if read.Read? {
      HighestIsReached(read.table, p, read.active);
    }
  }

  lemma {:induction false} HighestIsReached(t: Table, p: string, i: nat)
    requires i < |t| && t[i].playbookId == p
    ensures exists k :: 0 <= k < |t| && t[k].playbookId == p && t[k].number == HighestNumber(t, p)
  {
    var front, last := t[..|t| - 1], t[|t| - 1];
    if i < |t| - 1 {
      HighestIsReached(front, p, i);
      var k :| 0 <= k < |front| && front[k].playbookId == p && front[k].number == HighestNumber(front, p);
      assert t[k] == front[k];
    } else {
      NothingBelow(front, p);
    }
    assert t[|t| - 1] == last;
  }

  lemma {:induction false} NothingBelow(t: Table, p: string)
    ensures (exists k :: 0 <= k < |t| && t[k].playbookId == p && t[k].number == HighestNumber(t, p)) || HighestNumber(t, p) == 0
  {
    if t != [] {
      var front := t[..|t| - 1];
      NothingBelow(front, p);
      if k :| 0 <= k < |front| && front[k].playbookId == p && front[k].number == HighestNumber(front, p) {
        assert t[k] == front[k];
      }
      assert t[|t| - 1] == t[|t| - 1];
    }
  }

  /**
   A revision is confirmed exactly when it is not in force, works now and, if it is a proposal, was
   written on the revision in force; it then takes that one's place, and nothing else changes.
   */
  lemma ConfirmedExactlyWhen(t: Table, loaded: Loaded, id: nat, now: int, current: nat)
    requires Sound(t) && id < |t| && current < |t| && InForce(t[current], t[id].playbookId)
    ensures var r := ConfirmRevision(t, loaded, id, now);
            && (r.Read? <==>
                  && id != current && Valid(t[id].document, loaded)
                  && (t[id].status.Proposed? ==> t[id].basedOn == Some(current)))
            && (r.Read? ==>
                  && r.active == id && |r.table| == |t|
                  && r.table[id] == t[id].(status := Active, valid := true, activatedAt := Some(now), supersededAt := None)
                  && r.table[current] == t[current].(status := Superseded, supersededAt := Some(now))
                  && forall i :: 0 <= i < |t| && i != id && i != current ==> r.table[i] == t[i])
  {
    assert OneActive(t, t[id].playbookId);
    CurrentIsTheActive(t, t[id].playbookId, current);
    assert t[id].status.Active? ==> InForce(t[id], t[id].playbookId);
    hide Valid, ApplyChanges;
  }

  /** There is no revision to confirm beyond the table, and no table with a revision but none in force. */
  lemma SomethingIsInForce(t: Table, id: nat)
    requires Sound(t) && id < |t|
    ensures exists current: nat :: current < |t| && InForce(t[current], t[id].playbookId)
  {
    assert OneActive(t, t[id].playbookId);
  }
}

/** The revisions table, updated in place; a raised operation rolls its writes back. */
module PlaybookRows {
  import opened Common
  import opened Playbook
  import opened PlaybookValidation
  import Store = PlaybookStore

  class RevisionTable {
    var revisions: Store.Table

    constructor ()
      ensures revisions == [] && Store.Sound(revisions)
    {
      revisions := [];
    }

    /** The table and the answer are what the specification says, or nothing has changed. */
    static ghost predicate Came(was: Store.Table, now: Store.Table, spec: Store.Read, r: Option<nat>) {
      if spec.Refused? then now == was && r.None? else now == spec.table && r == Some(spec.active)
    }

    method ReadActivePlaybook(loaded: Loaded, p: string, seed: Document, now: int) returns (r: Option<nat>)
      modifies this
      ensures Came(old(revisions), revisions, Store.ReadActivePlaybook(old(revisions), loaded, p, seed, now), r)
    {
      hide Errors, ApplyChanges;
      var before := revisions;
      var found := Store.ReadStatus(revisions, p);
      if found.None? {
        var errors := ValidatePlaybook(seed, loaded);
        if errors != [] {
          return None;
        }
        revisions := revisions + [Store.Seeded(p, seed, loaded, now)];
        return Some(|revisions| - 1);
      }
      var active := found.value;
      var report := ValidatePlaybook(revisions[active].document, loaded);
      if report == [] {
        return Some(active);
      }
      revisions := revisions[active := revisions[active].(status := Store.Invalid, valid := false)];
      var fallback := Store.LastValid(revisions, loaded, p);
      if fallback.None? {
        revisions := before;
        return None;
      }
      var restored := fallback.value;
      revisions := revisions[restored := revisions[restored].(status := Store.Active)];
      revisions := revisions[restored := revisions[restored].(activatedAt := Some(now))];
      revisions := revisions[restored := revisions[restored].(supersededAt := None)];
      return Some(restored);
    }

    method ProposeChange(loaded: Loaded, changes: seq<Change>, p: string, seed: Document, now: int)
        returns (r: Option<nat>)
      modifies this
      ensures Came(old(revisions), revisions, Store.ProposeChange(old(revisions), loaded, changes, p, seed, now), r)
    {
      hide Errors, Valid, Store.ReadActivePlaybook;
      var before := revisions;
      var active := ReadActivePlaybook(loaded, p, seed, now);
      if active.None? {
        revisions := before;
        return None;
      }
      var changed := ApplyChanges(revisions[active.value].document, changes, loaded);
      if changed.None? {
        revisions := before;
        return None;
      }
      r := Some(|revisions|);
      revisions := revisions + [Store.Proposal(revisions, active.value, p, changed.value, changes, loaded)];
    }

    method ConfirmRevision(loaded: Loaded, id: nat, now: int) returns (r: Option<nat>)
      modifies this
      ensures Came(old(revisions), revisions, Store.ConfirmRevision(old(revisions), loaded, id, now), r)
    {
      hide Errors;
      if id >= |revisions| || revisions[id].status.Active? {
        return None;
      }
      var report := ValidatePlaybook(revisions[id].document, loaded);
      if report != [] {
        return None;
      }
      var current := Store.ReadStatus(revisions, revisions[id].playbookId);
      if revisions[id].status.Proposed? && current.Some? && revisions[id].basedOn.Some?
         && revisions[id].basedOn != current {
        return None;
      }
      if current.Some? {
        var c := current.value;
        revisions := revisions[c := revisions[c].(status := Store.Superseded, supersededAt := Some(now))];
      }
      revisions := revisions[id := revisions[id].(status := Store.Active, valid := true)];
      revisions := revisions[id := revisions[id].(activatedAt := Some(now), supersededAt := None)];
      return Some(id);
    }
  }
}
