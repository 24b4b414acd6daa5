/**
 A rule's life: proposed, previewed, confirmed, put to work, amended, retired. `Step` says
 what one request does to the rulebook; a refused request leaves it alone.
 */
module RuleStore {
  import opened Common
  import opened Conditions

  datatype Status = Observed | Proposed | Tested | Confirmed | Active | Automatable | Paused | Retired

  datatype EventKind =
    | WasProposed | WasAmended | WasTested | WasConfirmed | WasActivated | WasPromoted | WasPaused | WasResumed | WasRetired

  datatype Effect =
    | AssignGroup(group: string)
    | RecommendAction(action: string, destination: Option<string>)
    | ShowNotification(message: string)

  datatype Draft = Draft(
    ruleType: string,
    capability: Option<string>,
    priority: int,
    match_: Test,
    effects: seq<Effect>)

  /** What makes two rules the same rule; the hash of it is taken to be injective. */
  datatype Digest = Digest(ruleType: string, capability: Option<string>, match_: Test, effects: seq<Effect>)

  function DigestOf(d: Draft): Digest {
    Digest(d.ruleType, d.capability, d.match_, d.effects)
  }

  /** One statement of a rule: what it matches and does, but not the capability, which is the rule's. */
  datatype Version = Version(
    number: nat,
    priority: int,
    match_: Test,
    effects: seq<Effect>,
    digest: Digest,
    supersedes: Option<nat>)

  datatype Event = Event(kind: EventKind, version: nat, from: Option<Status>, to: Status)

  datatype Rule = Rule(
    ruleType: string,
    capability: Option<string>,
    status: Status,
    digest: Digest,
    versions: seq<Version>,
    current: nat,
    events: seq<Event>,
    confirmedAt: Option<int>,
    activatedAt: Option<int>,
    pausedAt: Option<int>,
    retiredAt: Option<int>)

  datatype Grant = Grant(permitted: set<string>, destinations: set<string>)

  datatype Config = Config(groups: set<string>, capabilities: map<string, Grant>)

  const OUTCOMES := {"needs_review", "no_action"}

  predicate EffectAllowed(x: Effect, d: Draft, config: Config) {
    match x
    case AssignGroup(group) => group in config.groups
    case ShowNotification(_) => true
    case RecommendAction(action, destination) =>
      d.capability.Some? && d.capability.value in config.capabilities
      && var grant := config.capabilities[d.capability.value];
         action in OUTCOMES
         || (action in grant.permitted
             && (destination.None? || destination.value == "" || destination.value in grant.destinations))
  }

  predicate CheckDraft(e: Engine, d: Draft, config: Config) {
    && CheckBreadth(e, d.match_)
    && (d.capability.Some? ==> d.capability.value in config.capabilities)
    && forall x :: x in d.effects ==> EffectAllowed(x, d, config)
  }

  function Allowed(s: Status): set<Status> {
    match s
    case Observed => {Proposed, Retired}
    case Proposed => {Tested, Retired}
    case Tested => {Confirmed, Proposed, Retired}
    case Confirmed => {Active, Retired}
    case Active => {Paused, Automatable, Retired}
    case Automatable => {Active, Paused, Retired}
    case Paused => {Active, Retired}
    case Retired => {}
  }

  /** The event a move to `to` records. No move leads to `Observed`. */
  function MoveEvent(was: Status, to: Status): EventKind {
    match to
    case Proposed => WasAmended
    case Tested => WasTested
    case Confirmed => WasConfirmed
    case Active => if was.Paused? then WasResumed else WasActivated
    case Automatable => WasPromoted
    case Paused => WasPaused
    case Retired => WasRetired
    case Observed => WasProposed
  }

  // ---------------------------------------------------------------- one rule

  function Written(d: Draft, number: nat, supersedes: Option<nat>): Version {
    Version(number, d.priority, d.match_, d.effects, DigestOf(d), supersedes)
  }

  /** The version in force as the rule it states: its capability is that of the rule. */
  function ReadBack(r: Rule): Draft
    requires r.current < |r.versions|
  {
    var v := r.versions[r.current];
    Draft(r.ruleType, r.capability, v.priority, v.match_, v.effects)
  }

  function NewRule(d: Draft): Rule {
    Rule(d.ruleType, d.capability, Proposed, DigestOf(d), [Written(d, 1, None)], 0, [Event(WasProposed, 0, None, Proposed)],
         None, None, None, None)
  }

  /** The capability stays what it was, whatever the draft says. */
  function Amended(r: Rule, d: Draft): Rule
    requires r.current < |r.versions|
  {
    var version := Written(d, r.versions[r.current].number + 1, Some(r.current));
    r.(versions := r.versions + [version], current := |r.versions|, digest := DigestOf(d), status := Proposed,
       confirmedAt := None, activatedAt := None, pausedAt := None,
       events := r.events + [Event(WasAmended, |r.versions|, Some(r.status), Proposed)])
  }

  function Moved(r: Rule, to: Status, now: int): Rule {
    r.(status := to,
       confirmedAt := if to.Confirmed? then Some(now) else r.confirmedAt,
       activatedAt := if to.Active? && r.activatedAt.None? then Some(now) else r.activatedAt,
       pausedAt := if to.Paused? then Some(now) else None,
       retiredAt := if to.Retired? then Some(now) else r.retiredAt,
       events := r.events + [Event(MoveEvent(r.status, to), r.current, Some(r.status), to)])
  }

  predicate MayMove(r: Rule, to: Status) {
    to in Allowed(r.status)
  }

  predicate MayAmend(e: Engine, r: Rule, d: Draft, config: Config) {
    !r.status.Retired? && d.ruleType == r.ruleType && CheckDraft(e, d, config)
  }

  // ---------------------------------------------------------------- the rulebook

  type Rulebook = seq<Rule>

  predicate Says(r: Rule, digest: Digest) {
    !r.status.Retired? && r.digest == digest
  }

  datatype Command =
    | Propose(draft: Draft, config: Config)
    | Amend(rule: nat, draft: Draft, config: Config)
    | Move(rule: nat, to: Status, now: int)
    | Preview(rule: nat, now: int)

  /** `None` is a request refused, whose transaction is rolled back. */
  function Perform(e: Engine, b: Rulebook, c: Command): Option<Rulebook> {
    match c
    case Propose(d, config) =>
      if !CheckDraft(e, d, config) || exists i :: 0 <= i < |b| && Says(b[i], DigestOf(d)) then None
      else Some(b + [NewRule(d)])
    case Amend(i, d, config) =>
      if i >= |b| || b[i].current >= |b[i].versions| || !MayAmend(e, b[i], d, config) then None
      else Some(b[i := Amended(b[i], d)])
    case Move(i, to, now) =>
      if i >= |b| || !MayMove(b[i], to) then None else Some(b[i := Moved(b[i], to, now)])
    case Preview(i, now) =>
      if i >= |b| then None
      else if b[i].status.Proposed? then Some(b[i := Moved(b[i], Tested, now)])
      else Some(b)
  }

  function Step(e: Engine, b: Rulebook, c: Command): Rulebook {
    var r := Perform(e, b, c);
    if r.None? then b else r.value
  }

  function Run(e: Engine, b: Rulebook, cs: seq<Command>): Rulebook
    decreases |cs|
  {
    if cs == [] then b else Run(e, Step(e, b, cs[0]), cs[1..])
  }

  // ---------------------------------------------------------------- what a history says

  predicate Starts(x: Event) {
    x.kind.WasProposed? || x.kind.WasAmended?
  }

  /** Tested as it stands: the test is of the current version and nothing was rewritten since. */
  ghost predicate TestedAt(r: Rule, i: int) {
    && 0 <= i < |r.events| && r.events[i].kind.WasTested? && r.events[i].version == r.current
    && forall k :: i <= k < |r.events| ==> !Starts(r.events[k])
  }

  ghost predicate ConfirmedAt(r: Rule, j: int) {
    0 <= j < |r.events| && r.events[j].kind.WasConfirmed? && r.events[j].version == r.current
  }

  predicate Agreed(s: Status) {
    s.Confirmed? || s.Active? || s.Automatable? || s.Paused?
  }

  /** The standing a rule has, earned in its log by the version it now is. */
  ghost predicate Earned(r: Rule) {
    && (r.status.Tested? ==> exists i :: TestedAt(r, i))
    && (Agreed(r.status) ==> exists i, j :: TestedAt(r, i) && i < j && ConfirmedAt(r, j))
  }

  /** Each event starts where the one before it ended; the result is where the last one ended. */
  function Replay(events: seq<Event>): Option<Status> {
    if events == [] then None
    else
      var last := events[|events| - 1];
      if last.from == Replay(events[..|events| - 1]) then Some(last.to) else None
  }

  ghost predicate Chained(r: Rule) {
    && r.versions != [] && r.current == |r.versions| - 1
    && (forall i :: 0 <= i < |r.versions| ==>
          r.versions[i].number == i + 1 && r.versions[i].supersedes == if i == 0 then None else Some(i - 1))
    && r.digest == r.versions[r.current].digest
    && (forall i :: 0 <= i < |r.versions| ==>
          var v := r.versions[i];
          v.digest == Digest(r.ruleType, v.digest.capability, v.match_, v.effects))
  }

  ghost predicate Dated(r: Rule) {
    && (r.pausedAt.Some? <==> r.status.Paused?)
    && (r.retiredAt.Some? <==> r.status.Retired?)
    && (Agreed(r.status) ==> r.confirmedAt.Some?)
    && (r.status.Proposed? || r.status.Tested? ==> r.confirmedAt.None?)
    && (r.status.Active? || r.status.Automatable? || r.status.Paused? ==> r.activatedAt.Some?)
    && (r.status.Proposed? || r.status.Tested? || r.status.Confirmed? ==> r.activatedAt.None?)
  }

  ghost predicate Sound(r: Rule) {
    Earned(r) && Replay(r.events) == Some(r.status) && Chained(r) && Dated(r) && !r.status.Observed?
  }

  ghost predicate AllSound(b: Rulebook) {
    forall i :: 0 <= i < |b| ==> Sound(b[i])
  }

  lemma ReplayAppends(events: seq<Event>, x: Event)
    ensures Replay(events + [x]) == if x.from == Replay(events) then Some(x.to) else None
  {
    assert (events + [x])[..|events|] == events;
  }

  lemma MoveEarns(r: Rule, to: Status, now: int)
    requires Sound(r) && MayMove(r, to)
    ensures Earned(Moved(r, to, now))
  {
    var m := Moved(r, to, now);
    var n := |r.events|;
    if to.Tested? {
      assert TestedAt(m, n);
    } else if to.Confirmed? {
      var i :| TestedAt(r, i);
      assert TestedAt(m, i) && ConfirmedAt(m, n);
    } else if Agreed(to) {
      var i, j :| TestedAt(r, i) && i < j && ConfirmedAt(r, j);
      assert TestedAt(m, i) && ConfirmedAt(m, j);
    }
  }

  lemma MoveIsSound(r: Rule, to: Status, now: int)
    requires Sound(r) && MayMove(r, to)
    ensures Sound(Moved(r, to, now))
  {
    MoveEarns(r, to, now);
    ReplayAppends(r.events, Event(MoveEvent(r.status, to), r.current, Some(r.status), to));
    hide Earned, Replay;
  }

  lemma AmendIsSound(r: Rule, d: Draft)
    requires Sound(r) && r.current < |r.versions| && !r.status.Retired? && d.ruleType == r.ruleType
    ensures Sound(Amended(r, d))
  {
    ReplayAppends(r.events, Event(WasAmended, |r.versions|, Some(r.status), Proposed));
    hide Replay;
    var a := Amended(r, d);
    assert Chained(a);
  }

  /** Versions and events are only ever added, and a retired rule is never touched again. */
  ghost predicate Keeps(r: Rule, s: Rule) {
    && r.versions <= s.versions && r.events <= s.events
    && r.ruleType == s.ruleType && r.capability == s.capability
    && (r.status.Retired? ==> s == r)
  }

  ghost predicate AllKept(b: Rulebook, b': Rulebook) {
    |b| <= |b'| && forall i :: 0 <= i < |b| ==> Keeps(b[i], b'[i])
  }

  lemma StepIsSound(e: Engine, b: Rulebook, c: Command)
    requires AllSound(b)
    ensures AllSound(Step(e, b, c)) && AllKept(b, Step(e, b, c))
  {
    hide CheckDraft, Sound;
    match c
    case Propose(d, _) => NewIsSound(d);
    case Amend(i, d, _) =>
      if i < |b| && b[i].current < |b[i].versions| && !b[i].status.Retired? && d.ruleType == b[i].ruleType { AmendIsSound(b[i], d); }
    case Move(i, to, now) =>
      if i < |b| && MayMove(b[i], to) { MoveIsSound(b[i], to, now); }
    case Preview(i, now) =>
      if i < |b| && b[i].status.Proposed? { MoveIsSound(b[i], Tested, now); }
  }

  lemma NewIsSound(d: Draft)
    ensures Sound(NewRule(d))
  {
    ReplayAppends([], Event(WasProposed, 0, None, Proposed));
    assert [] + [Event(WasProposed, 0, None, Proposed)] == NewRule(d).events;
  }

  /**
   In every run of propose, preview, amend and move: a rule that is confirmed, active,
   automatable or paused was tested and then confirmed as the version it is now, with nothing
   rewritten since; its status is the replay of its log; its versions are a chain 1..n whose
   last is current and was written under the digest the rule has; its dates fit its status; its
   type and capability are those it was proposed with; and what is retired stays exactly as it was.
   */
  lemma {:induction false} RunIsSound(e: Engine, b: Rulebook, cs: seq<Command>)
    requires AllSound(b)
    ensures AllSound(Run(e, b, cs)) && AllKept(b, Run(e, b, cs))
    decreases |cs|
  {
    if cs != [] {
      StepIsSound(e, b, cs[0]);
      RunIsSound(e, Step(e, b, cs[0]), cs[1..]);
      assert forall i :: 0 <= i < |b| ==> Keeps(b[i], Step(e, b, cs[0])[i]);
    }
  }

  /** An effective rule's current version narrowed when it was written: no rule in force is about everything. */
  ghost predicate Narrow(e: Engine, b: Rulebook) {
    forall i :: 0 <= i < |b| ==>
      b[i].current < |b[i].versions| && CheckBreadth(e, b[i].versions[b[i].current].match_)
  }

  lemma {:induction false} RulesStayNarrow(e: Engine, b: Rulebook, cs: seq<Command>)
    requires Narrow(e, b)
    ensures Narrow(e, Run(e, b, cs))
    decreases |cs|
  {
    hide CheckBreadth;
    if cs != [] {
      RulesStayNarrow(e, Step(e, b, cs[0]), cs[1..]);
    }
  }

  // ---------------------------------------------------------------- what each request comes to

  /** Where a rule may come from to stand where it is put. */
  lemma MayBecomeExactlyWhen(was: Status, to: Status)
    ensures to in Allowed(was) <==>
              match to {
                case Observed => false
                case Proposed => was.Observed? || was.Tested?
                case Tested => was.Proposed?
                case Confirmed => was.Tested?
                case Active => was.Confirmed? || was.Automatable? || was.Paused?
                case Automatable => was.Active?
                case Paused => was.Active? || was.Automatable?
                case Retired => !was.Retired?
              }
  {
  }

  /** An effect passes by its own kind: a group there is, an outcome, or an action and folder the capability has. */
  lemma DraftPassesExactlyWhen(e: Engine, d: Draft, config: Config)
    ensures CheckDraft(e, d, config) <==>
              && Narrows(e, d.match_)
              && (d.capability.Some? ==> d.capability.value in config.capabilities)
              && (forall group :: AssignGroup(group) in d.effects ==> group in config.groups)
              && (forall action, folder :: RecommendAction(action, folder) in d.effects ==>
                    && d.capability.Some?
                    && (action in {"needs_review", "no_action"}
                        || (&& action in config.capabilities[d.capability.value].permitted
                            && (folder in {None, Some("")}
                                || folder.value in config.capabilities[d.capability.value].destinations))))
  {
    hide Narrows;
    if CheckDraft(e, d, config) {
      forall action, folder | RecommendAction(action, folder) in d.effects
        ensures EffectAllowed(RecommendAction(action, folder), d, config)
      {
      }
      forall group | AssignGroup(group) in d.effects
        ensures EffectAllowed(AssignGroup(group), d, config)
      {
      }
    }
  }

  /** A rule is written down exactly when its draft passes and no live rule has its digest. */
  lemma ProposedExactlyWhen(e: Engine, b: Rulebook, d: Draft, config: Config)
    ensures Perform(e, b, Propose(d, config)).Some? <==>
              CheckDraft(e, d, config) && forall i :: 0 <= i < |b| && !b[i].status.Retired? ==> b[i].digest != DigestOf(d)
    ensures Perform(e, b, Propose(d, config)).Some? ==>
              var after := Perform(e, b, Propose(d, config)).value;
              && |after| == |b| + 1 && after[..|b|] == b
              && after[|b|].status.Proposed? && after[|b|].current == 0 && |after[|b|].versions| == 1
              && ReadBack(after[|b|]) == d
  {
    hide CheckDraft;
  }

  /** A rule is amended exactly while not retired, by a draft of its type that passes; its agreement is gone. */
  lemma AmendedExactlyWhen(e: Engine, b: Rulebook, i: nat, d: Draft, config: Config)
    requires i < |b| && b[i].current < |b[i].versions|
    ensures Perform(e, b, Amend(i, d, config)).Some? <==>
              !b[i].status.Retired? && d.ruleType == b[i].ruleType && CheckDraft(e, d, config)
    ensures Perform(e, b, Amend(i, d, config)).Some? ==>
              var after := Perform(e, b, Amend(i, d, config)).value;
              && |after| == |b| && (forall j :: 0 <= j < |b| && j != i ==> after[j] == b[j])
              && var r := after[i];
                 && r.status.Proposed? && r.confirmedAt.None? && r.activatedAt.None? && r.pausedAt.None?
                 && r.versions[..|b[i].versions|] == b[i].versions && r.current == |b[i].versions|
                 && |r.versions| == |b[i].versions| + 1
                 && ReadBack(r) == d.(capability := b[i].capability)
  {
    hide CheckDraft;
  }

  function Kinds(events: seq<Event>): (kinds: seq<EventKind>)
    ensures |kinds| == |events| && forall i :: 0 <= i < |kinds| ==> kinds[i] == events[i].kind
  {
    seq(|events|, i requires 0 <= i < |events| => events[i].kind)
  }

  /**
   A draft that passes can be taken through a whole life: previewed, confirmed, put to work,
   paused, resumed, promoted and retired, each step accepted and written down as what it was, the
   first day it worked being the one kept.
   */
  lemma WholeLife(e: Engine, d: Draft, config: Config)
    requires CheckDraft(e, d, config)
    ensures var r := Run(e, [], [Propose(d, config), Preview(0, 1), Move(0, Confirmed, 2), Move(0, Active, 3),
                                 Move(0, Paused, 4), Move(0, Active, 5), Move(0, Automatable, 6), Move(0, Retired, 7)]);
            && |r| == 1 && r[0].status.Retired?
            && Kinds(r[0].events) == [WasProposed, WasTested, WasConfirmed, WasActivated,
                                      WasPaused, WasResumed, WasPromoted, WasRetired]
            && r[0].confirmedAt == Some(2) && r[0].activatedAt == Some(3) && r[0].pausedAt.None? && r[0].retiredAt == Some(7)
  {
    var cs := [Propose(d, config), Preview(0, 1), Move(0, Confirmed, 2), Move(0, Active, 3),
               Move(0, Paused, 4), Move(0, Active, 5), Move(0, Automatable, 6), Move(0, Retired, 7)];
    var r3 := Moved(Moved(Moved(NewRule(d), Tested, 1), Confirmed, 2), Active, 3);
    assert cs[..4] == [Propose(d, config), Preview(0, 1), Move(0, Confirmed, 2), Move(0, Active, 3)];
    assert cs[4..] == [Move(0, Paused, 4), Move(0, Active, 5), Move(0, Automatable, 6), Move(0, Retired, 7)];
    hide CheckDraft, Run, Kinds;
    FirstHalf(e, d, config, cs);
    FirstHalfWrites(d);
    SecondHalf(e, r3, cs[4..]);
    SecondHalfWrites(r3);
  }

  lemma MovedWrites(r: Rule, to: Status, now: int)
    ensures Kinds(Moved(r, to, now).events) == Kinds(r.events) + [MoveEvent(r.status, to)]
  {
  }

  lemma FirstHalfWrites(d: Draft)
    ensures var r := Moved(Moved(Moved(NewRule(d), Tested, 1), Confirmed, 2), Active, 3);
            && Kinds(r.events) == [WasProposed, WasTested, WasConfirmed, WasActivated]
            && r.status.Active? && r.confirmedAt == Some(2) && r.activatedAt == Some(3) && r.retiredAt.None?
  {
    var r0 := NewRule(d);
    assert Kinds(r0.events) == [WasProposed];
    MovedWrites(r0, Tested, 1);
    MovedWrites(Moved(r0, Tested, 1), Confirmed, 2);
    MovedWrites(Moved(Moved(r0, Tested, 1), Confirmed, 2), Active, 3);
    hide Kinds;
  }

  lemma SecondHalfWrites(r: Rule)
    requires r.status.Active? && r.activatedAt.Some?
    ensures var last := Moved(Moved(Moved(Moved(r, Paused, 4), Active, 5), Automatable, 6), Retired, 7);
            && Kinds(last.events) == Kinds(r.events) + [WasPaused, WasResumed, WasPromoted, WasRetired]
            && last.status.Retired? && last.confirmedAt == r.confirmedAt && last.activatedAt == r.activatedAt
            && last.pausedAt.None? && last.retiredAt == Some(7)
  {
    var r1 := Moved(r, Paused, 4);
    var r2 := Moved(r1, Active, 5);
    MovedWrites(r, Paused, 4);
    MovedWrites(r1, Active, 5);
    MovedWrites(r2, Automatable, 6);
    MovedWrites(Moved(r2, Automatable, 6), Retired, 7);
    hide Kinds;
  }

  lemma FirstHalf(e: Engine, d: Draft, config: Config, cs: seq<Command>)
    requires CheckDraft(e, d, config) && |cs| >= 4
    requires cs[..4] == [Propose(d, config), Preview(0, 1), Move(0, Confirmed, 2), Move(0, Active, 3)]
    ensures Run(e, [], cs) == Run(e, [Moved(Moved(Moved(NewRule(d), Tested, 1), Confirmed, 2), Active, 3)], cs[4..])
  {
    var r0 := NewRule(d);
    var r1 := Moved(r0, Tested, 1);
    assert cs[0] == cs[..4][0] && cs[1] == cs[..4][1] && cs[2] == cs[..4][2] && cs[3] == cs[..4][3];
    assert Step(e, [], cs[0]) == [r0] && Step(e, [r0], cs[1]) == [r1];
    MoveStep(e, r1, Confirmed, 2);
    MoveStep(e, Moved(r1, Confirmed, 2), Active, 3);
    hide Step, Moved, CheckDraft;
    RunStep(e, [], cs);
    RunStep(e, [r0], cs[1..]);
    RunStep(e, [r1], cs[2..]);
    RunStep(e, [Moved(r1, Confirmed, 2)], cs[3..]);
    assert cs[1..][1..] == cs[2..] && cs[2..][1..] == cs[3..] && cs[3..][1..] == cs[4..];
  }

  lemma SecondHalf(e: Engine, r: Rule, cs: seq<Command>)
    requires r.status.Active?
    requires cs == [Move(0, Paused, 4), Move(0, Active, 5), Move(0, Automatable, 6), Move(0, Retired, 7)]
    ensures Run(e, [r], cs) == [Moved(Moved(Moved(Moved(r, Paused, 4), Active, 5), Automatable, 6), Retired, 7)]
  {
    var r1 := Moved(r, Paused, 4);
    var r2 := Moved(r1, Active, 5);
    var r3 := Moved(r2, Automatable, 6);
    MoveStep(e, r, Paused, 4);
    MoveStep(e, r1, Active, 5);
    MoveStep(e, r2, Automatable, 6);
    MoveStep(e, r3, Retired, 7);
    hide Step, Moved;
    RunStep(e, [r], cs);
    RunStep(e, [r1], cs[1..]);
    RunStep(e, [r2], cs[2..]);
    RunStep(e, [r3], cs[3..]);
    assert cs[1..][1..] == cs[2..] && cs[2..][1..] == cs[3..];
  }

  lemma MoveStep(e: Engine, r: Rule, to: Status, now: int)
    requires to in Allowed(r.status)
    ensures Step(e, [r], Move(0, to, now)) == [Moved(r, to, now)] && Moved(r, to, now).status == to
  {
  }

  lemma RunStep(e: Engine, b: Rulebook, cs: seq<Command>)
    requires cs != []
    ensures Run(e, b, cs) == Run(e, Step(e, b, cs[0]), cs[1..])
    ensures |cs| == 1 ==> Run(e, b, cs) == Step(e, b, cs[0])
  {
    hide Step;
  }
}

/** The rules table, written step by step; each method is what `RuleStore.Perform` says of it. */
module RuleRows {
  import opened Common
  import opened Conditions
  import Readings = RuleReadings
  import Store = RuleStore

  class RuleTable {
    var rules: Store.Rulebook

    constructor ()
      ensures rules == [] && Store.AllSound(rules) && Readings.NoTwins(rules)
    {
      rules := [];
    }

    /** Accepted, with the rulebook the specification gives; or refused, with nothing changed. */
    static ghost predicate Came(was: Store.Rulebook, now: Store.Rulebook, spec: Option<Store.Rulebook>, accepted: bool) {
      accepted == spec.Some? && now == if spec.Some? then spec.value else was
    }

    method WriteVersion(rule: nat, draft: Store.Draft, number: nat, previous: Option<nat>) returns (version: nat)
      requires rule < |rules|
      modifies this
      ensures version == |old(rules)[rule].versions|
      ensures rules == old(rules)[rule := old(rules)[rule].(
                         versions := old(rules)[rule].versions + [Store.Written(draft, number, previous)])]
    {
      version := |rules[rule].versions|;
      var written := Store.Version(number, draft.priority, draft.match_, draft.effects, Store.DigestOf(draft), previous);
      var versions := rules[rule].versions + [written];
      rules := rules[rule := rules[rule].(versions := versions)];
    }

    method Record(rule: nat, kind: Store.EventKind, from: Option<Store.Status>, to: Store.Status)
      requires rule < |rules|
      modifies this
      ensures rules == old(rules)[rule := old(rules)[rule].(
                         events := old(rules)[rule].events + [Store.Event(kind, old(rules)[rule].current, from, to)])]
    {
      var events := rules[rule].events + [Store.Event(kind, rules[rule].current, from, to)];
      rules := rules[rule := rules[rule].(events := events)];
    }

    method ProposeRule(e: Engine, draft: Store.Draft, config: Store.Config) returns (accepted: bool)
      modifies this
      ensures Came(old(rules), rules, Store.Perform(e, old(rules), Store.Propose(draft, config)), accepted)
    {
      hide Store.CheckDraft;
      if !Store.CheckDraft(e, draft, config) {
        return false;
      }
      var digest := Store.DigestOf(draft);
      for i := 0 to |rules|
        invariant forall k :: 0 <= k < i ==> !Store.Says(rules[k], digest)
      {
        if Store.Says(rules[i], digest) {
          return false;
        }
      }
      var rule := |rules|;
      rules := rules + [Store.Rule(draft.ruleType, draft.capability, Store.Proposed, digest, [], 0, [], None, None, None, None)];
      var version := WriteVersion(rule, draft, 1, None);
      rules := rules[rule := rules[rule].(current := version)];
      Record(rule, Store.WasProposed, None, Store.Proposed);
      assert rules[rule] == Store.NewRule(draft);
      assert rules[..rule] == old(rules);
      return true;
    }

    method AmendRule(e: Engine, rule: nat, draft: Store.Draft, config: Store.Config) returns (accepted: bool)
      modifies this
      ensures Came(old(rules), rules, Store.Perform(e, old(rules), Store.Amend(rule, draft, config)), accepted)
    {
      hide Store.CheckDraft;
      if rule >= |rules| || rules[rule].current >= |rules[rule].versions| {
        return false;
      }
      if rules[rule].status.Retired? || draft.ruleType != rules[rule].ruleType {
        return false;
      }
      if !Store.CheckDraft(e, draft, config) {
        return false;
      }
      var previous := rules[rule].current;
      var version := WriteVersion(rule, draft, rules[rule].versions[previous].number + 1, Some(previous));
      var was := rules[rule].status;
      rules := rules[rule := rules[rule].(current := version, digest := Store.DigestOf(draft))];
      rules := rules[rule := rules[rule].(status := Store.Proposed)];
      rules := rules[rule := rules[rule].(confirmedAt := None, activatedAt := None, pausedAt := None)];
      Record(rule, Store.WasAmended, Some(was), Store.Proposed);
      assert rules[rule] == Store.Amended(old(rules)[rule], draft);
      return true;
    }

    method MoveRule(ghost e: Engine, rule: nat, to: Store.Status, now: int) returns (accepted: bool)
      modifies this
      ensures Came(old(rules), rules, Store.Perform(e, old(rules), Store.Move(rule, to, now)), accepted)
    {
      if rule >= |rules| {
        return false;
      }
      var was := rules[rule].status;
      if to == was || to !in Store.Allowed(was) {
        return false;
      }
      rules := rules[rule := rules[rule].(status := to)];
      if to == Store.Confirmed {
        rules := rules[rule := rules[rule].(confirmedAt := Some(now))];
      }
      if to == Store.Active && rules[rule].activatedAt.None? {
        rules := rules[rule := rules[rule].(activatedAt := Some(now))];
      }
      rules := rules[rule := rules[rule].(pausedAt := if to == Store.Paused then Some(now) else None)];
      if to == Store.Retired {
        rules := rules[rule := rules[rule].(retiredAt := Some(now))];
      }
      Record(rule, Store.MoveEvent(was, to), Some(was), to);
      assert rules[rule] == Store.Moved(old(rules)[rule], to, now);
      return true;
    }

    method PreviewRule(ghost e: Engine, rule: nat, now: int) returns (accepted: bool)
      modifies this
      ensures Came(old(rules), rules, Store.Perform(e, old(rules), Store.Preview(rule, now)), accepted)
    {
      if rule >= |rules| {
        return false;
      }
      if rules[rule].status == Store.Proposed {
        accepted := MoveRule(e, rule, Store.Tested, now);
      } else {
        accepted := true;
      }
    }
  }
}
