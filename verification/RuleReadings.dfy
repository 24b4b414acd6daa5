/**
 What the rules of a rulebook say when they are read back, and so which of them say the same.
 A rule is read back under its own capability, which no amendment changes.
 */
module RuleReadings {
  import opened Common
  import opened Conditions
  import opened RuleStore
  import Text

  // ---------------------------------------------------------------- what a rule reads back as

  /** A draft accepted, and the configuration it was checked against. */
  datatype Write = Write(draft: Draft, config: Config)

  /** What an accepted request writes into rule `i`. */
  function WriteTo(e: Engine, b: Rulebook, c: Command, i: nat): Option<Write> {
    if Perform(e, b, c).None? then None
    else if c.Propose? && i == |b| then Some(Write(c.draft, c.config))
    else if c.Amend? && i == c.rule then Some(Write(c.draft, c.config))
    else None
  }

  function LastWrite(e: Engine, b: Rulebook, cs: seq<Command>, i: nat, before: Option<Write>): Option<Write>
    decreases |cs|
  {
    if cs == [] then before
    else
      var w := WriteTo(e, b, cs[0], i);
      LastWrite(e, Step(e, b, cs[0]), cs[1..], i, if w.Some? then w else before)
  }

  /** The rule is this draft as it was checked and digested, but for the capability. */
  ghost predicate Holds(e: Engine, r: Rule, w: Write) {
    && CheckDraft(e, w.draft, w.config)
    && r.current < |r.versions|
    && r.digest == DigestOf(w.draft)
    && ReadBack(r) == w.draft.(capability := r.capability)
  }

  ghost predicate Accounted(e: Engine, b: Rulebook, i: nat, w: Option<Write>) {
    i < |b| ==> w.Some? && Holds(e, b[i], w.value)
  }

  lemma StepIsAccounted(e: Engine, b: Rulebook, c: Command, i: nat, before: Option<Write>)
    requires Accounted(e, b, i, before)
    ensures var w := WriteTo(e, b, c, i);
            Accounted(e, Step(e, b, c), i, if w.Some? then w else before)
  {
    hide CheckDraft;
  }

  lemma {:induction false} RunIsAccounted(e: Engine, b: Rulebook, cs: seq<Command>, i: nat, before: Option<Write>)
    requires Accounted(e, b, i, before)
    ensures Accounted(e, Run(e, b, cs), i, LastWrite(e, b, cs, i, before))
    decreases |cs|
  {
    hide Accounted;
    if cs != [] {
      StepIsAccounted(e, b, cs[0], i, before);
      var w := WriteTo(e, b, cs[0], i);
      RunIsAccounted(e, Step(e, b, cs[0]), cs[1..], i, if w.Some? then w else before);
    }
  }

  /** The digest stored is that of what the rule says. */
  ghost predicate Digested(r: Rule) {
    r.current < |r.versions| && r.digest == DigestOf(ReadBack(r))
  }

  /**
   In every run from an empty rulebook, a rule is digested as what it says, and is itself the
   draft that was checked, exactly when the last draft accepted for it named its own capability.
   */
  lemma SaysWhatWasCheckedExactlyWhen(e: Engine, cs: seq<Command>, i: nat)
    requires i < |Run(e, [], cs)|
    ensures var r, last := Run(e, [], cs)[i], LastWrite(e, [], cs, i, None);
            && last.Some? && Holds(e, r, last.value)
            && (Digested(r) <==> last.value.draft.capability == r.capability)
            && (ReadBack(r) == last.value.draft <==> last.value.draft.capability == r.capability)
            && (last.value.draft.capability == r.capability ==> CheckDraft(e, ReadBack(r), last.value.config))
  {
    RunIsAccounted(e, [], cs, i, None);
    hide CheckDraft, LastWrite, Run;
  }

  predicate Recommends(d: Draft) {
    exists x :: x in d.effects && x.RecommendAction?
  }

  /**
   Whatever is configured, a draft that passes its check would pass it under the rule's own
   capability: exactly when it names that one, or the rule has none and the draft recommends nothing.
   */
  lemma PassesUnderOwnExactlyWhen(e: Engine, d: Draft, own: Option<string>, some: Config)
    requires CheckDraft(e, d, some)
    ensures (forall config :: CheckDraft(e, d, config) ==> CheckDraft(e, d.(capability := own), config)) <==>
              d.capability == own || (own.None? && !Recommends(d))
  {
    var moved := d.(capability := own);
    hide CheckBreadth;
    if own.None? && !Recommends(d) {
      forall config | CheckDraft(e, d, config)
        ensures CheckDraft(e, moved, config)
      {
        assert forall x :: x in d.effects && EffectAllowed(x, d, config) ==> EffectAllowed(x, moved, config);
      }
    } else if d.capability != own && own.None? {
      var x :| x in d.effects && x.RecommendAction?;
      assert !EffectAllowed(x, moved, some);
      assert !CheckDraft(e, moved, some);
    } else if d.capability != own {
      var without := some.(capabilities := some.capabilities - {own.value});
      assert forall x :: x in d.effects && EffectAllowed(x, d, some) ==> EffectAllowed(x, d, without);
      assert CheckDraft(e, d, without) && !CheckDraft(e, moved, without);
    }
  }

  // ---------------------------------------------------------------- two rules saying one thing

  predicate Live(r: Rule) {
    !r.status.Retired? && r.current < |r.versions|
  }

  /** The rule is not retired and reads back, priority aside, as this draft does. */
  predicate ReadsAs(r: Rule, d: Draft) {
    Live(r) && DigestOf(ReadBack(r)) == DigestOf(d)
  }

  predicate Twins(r: Rule, s: Rule) {
    Live(r) && ReadsAs(s, ReadBack(r))
  }

  /** No two live rules read back as the same rule. */
  ghost predicate NoTwins(b: Rulebook) {
    forall i, j :: 0 <= i < j < |b| ==> !Twins(b[i], b[j])
  }

  /** Whether the request rewrites this rule. */
  predicate Rewrites(c: Command, i: nat) {
    c.Amend? && c.rule == i
  }

  /** What the rule written will read back as: an amended one under the capability it had. */
  function WillSay(b: Rulebook, c: Command): Option<Draft> {
    match c
    case Propose(d, _) => Some(d)
    case Amend(i, d, _) => if i < |b| then Some(d.(capability := b[i].capability)) else None
    case _ => None
  }

  /** Some other live rule already reads back as what this request writes. */
  ghost predicate MakesTwin(b: Rulebook, c: Command) {
    WillSay(b, c).Some? && exists j :: 0 <= j < |b| && !Rewrites(c, j) && ReadsAs(b[j], WillSay(b, c).value)
  }

  lemma TwinsBothWays(r: Rule, s: Rule)
    ensures Twins(r, s) <==> Twins(s, r)
  {
  }

  lemma NewIsApart(b: Rulebook, r: Rule)
    requires NoTwins(b)
    ensures NoTwins(b + [r]) <==> forall j :: 0 <= j < |b| ==> !Twins(r, b[j])
  {
    hide Twins;
    var after := b + [r];
    forall j | 0 <= j < |b|
      ensures after[j] == b[j] && (Twins(b[j], r) <==> Twins(r, b[j]))
    {
      TwinsBothWays(r, b[j]);
    }
    if NoTwins(after) {
      assert forall j :: 0 <= j < |b| ==> !Twins(after[j], after[|b|]);
    }
  }

  lemma ChangedIsApart(b: Rulebook, k: nat, r: Rule)
    requires NoTwins(b) && k < |b|
    ensures NoTwins(b[k := r]) <==> forall j :: 0 <= j < |b| && j != k ==> !Twins(r, b[j])
  {
    hide Twins;
    var after := b[k := r];
    forall j | 0 <= j < |b| && j != k
      ensures after[j] == b[j] && (Twins(b[j], r) <==> Twins(r, b[j]))
    {
      TwinsBothWays(r, b[j]);
    }
    if NoTwins(after) {
      assert forall j :: 0 <= j < k ==> !Twins(after[j], after[k]);
      assert forall j :: k < j < |b| ==> !Twins(after[k], after[j]);
    }
  }

  /** A rule that says no more than it did has no twin it did not have. */
  lemma StaysApart(b: Rulebook, k: nat, r: Rule)
    requires NoTwins(b) && k < |b| && (Live(r) ==> Live(b[k]) && ReadBack(r) == ReadBack(b[k]))
    ensures NoTwins(b[k := r])
  {
    ChangedIsApart(b, k, r);
    forall j | 0 <= j < |b| && j != k
      ensures !Twins(r, b[j])
    {
      TwinsBothWays(b[k], b[j]);
      assert !Twins(b[k], b[j]);
    }
  }

  /**
   An accepted step keeps live rules from reading alike exactly when what it writes is not
   already what another live rule reads back as; moving and previewing never make a twin.
   */
  lemma TwinsExactlyWhen(e: Engine, b: Rulebook, c: Command)
    requires NoTwins(b) && Perform(e, b, c).Some?
    ensures NoTwins(Step(e, b, c)) <==> !MakesTwin(b, c)
  {
    hide CheckDraft, NoTwins;
    match c
    case Propose(d, _) =>
      NewIsApart(b, NewRule(d));
      assert ReadBack(NewRule(d)) == d;
    case Amend(i, d, _) =>
      ChangedIsApart(b, i, Amended(b[i], d));
      assert ReadBack(Amended(b[i], d)) == d.(capability := b[i].capability);
    case Move(i, to, now) =>
      StaysApart(b, i, Moved(b[i], to, now));
    case Preview(i, now) =>
      if b[i].status.Proposed? {
        StaysApart(b, i, Moved(b[i], Tested, now));
      }
  }

  /**
   What proposing looks for is a digest, so an accepted proposal makes a twin exactly where a
   live rule reads back as the draft under a digest that is not the draft's.
   */
  lemma ProposalTwinsExactlyWhen(e: Engine, b: Rulebook, d: Draft, config: Config)
    requires Perform(e, b, Propose(d, config)).Some?
    ensures MakesTwin(b, Propose(d, config)) <==> exists j :: 0 <= j < |b| && ReadsAs(b[j], d) && !Digested(b[j])
  {
    hide CheckDraft;
    forall j | 0 <= j < |b| && ReadsAs(b[j], d)
      ensures !Digested(b[j])
    {
      assert !Says(b[j], DigestOf(d));
    }
    hide ReadsAs, Digested;
    assert forall j: nat :: !Rewrites(Propose(d, config), j);
  }

  /** An amendment that names the rule's own capability and what no other live rule says. */
  ghost predicate Careful(b: Rulebook, c: Command) {
    c.Amend? && c.rule < |b| ==>
      c.draft.capability == b[c.rule].capability
      && forall j :: 0 <= j < |b| && j != c.rule ==> !Says(b[j], DigestOf(c.draft))
  }

  ghost predicate AllCareful(e: Engine, b: Rulebook, cs: seq<Command>)
    decreases |cs|
  {
    cs != [] ==> Careful(b, cs[0]) && AllCareful(e, Step(e, b, cs[0]), cs[1..])
  }

  ghost predicate AllDigested(b: Rulebook) {
    forall i :: 0 <= i < |b| ==> Digested(b[i])
  }

  lemma StepStaysDigested(e: Engine, b: Rulebook, c: Command)
    requires AllDigested(b) && Careful(b, c)
    ensures AllDigested(Step(e, b, c))
  {
    hide CheckDraft;
  }

  lemma CarefulMakesNoTwin(e: Engine, b: Rulebook, c: Command)
    requires AllDigested(b) && Careful(b, c) && Perform(e, b, c).Some?
    ensures !MakesTwin(b, c)
  {
    hide CheckDraft;
    forall j | 0 <= j < |b| && WillSay(b, c).Some? && !Rewrites(c, j)
      ensures !ReadsAs(b[j], WillSay(b, c).value)
    {
      assert Digested(b[j]) && !Says(b[j], DigestOf(c.draft));
    }
  }

  /** Over every run of such amendments and anything else, each rule is digested as it reads and no two read alike. */
  lemma {:induction false} CarefulRunsKeepApart(e: Engine, b: Rulebook, cs: seq<Command>)
    requires NoTwins(b) && AllDigested(b) && AllCareful(e, b, cs)
    ensures NoTwins(Run(e, b, cs)) && AllDigested(Run(e, b, cs))
    decreases |cs|
  {
    if cs != [] {
      StepStaysDigested(e, b, cs[0]);
      hide NoTwins, MakesTwin, Careful;
      if Perform(e, b, cs[0]).Some? {
        CarefulMakesNoTwin(e, b, cs[0]);
        TwinsExactlyWhen(e, b, cs[0]);
      }
      hide Perform;
      CarefulRunsKeepApart(e, Step(e, b, cs[0]), cs[1..]);
    }
  }

  // ---------------------------------------------------------------- where the code parts from that

  const LEGAL := Some("legal")
  const FINANCE := Some("finance")
  const BOTH := Config({"legal", "finance"},
                       map["legal" := Grant({}, {}), "finance" := Grant({"gmail_move"}, {"Taxes"})])

  function About(capability: Option<string>, effect: Effect): Draft {
    Draft("email_recommendation_rule", capability, 100,
          Group([Leaf(Condition(Subject, Equals, "Transfer"))], [], []), [effect])
  }

  const LEAVE_IT := RecommendAction("no_action", None)
  const FILE_IT := RecommendAction("gmail_move", Some("Taxes"))

  lemma DraftPasses(e: Engine, capability: Option<string>, effect: Effect)
    requires capability in {LEGAL, FINANCE} && effect in {LEAVE_IT, FILE_IT} && (effect == FILE_IT ==> capability == FINANCE)
    ensures CheckDraft(e, About(capability, effect), BOTH)
  {
    var t := Leaf(Condition(Subject, Equals, "Transfer"));
    assert LeafNarrows(e, t.condition) by {
      TrimNothing();
    }
    assert t in About(capability, effect).match_.all && Narrows(e, t);
  }

  lemma TrimNothing()
    ensures Text.Strip("Transfer") == "Transfer"
  {
  }

  lemma RunMore(e: Engine, b: Rulebook, c: Command, cs: seq<Command>)
    ensures Run(e, b, [c] + cs) == Run(e, Step(e, b, c), cs)
  {
    assert ([c] + cs)[1..] == cs;
  }

  lemma RunThree(e: Engine, b: Rulebook, c0: Command, c1: Command, c2: Command)
    ensures Run(e, b, [c0, c1, c2]) == Step(e, Step(e, Step(e, b, c0), c1), c2)
  {
    hide Step;
    assert [c0, c1, c2] == [c0] + ([c1] + ([c2] + []));
    RunMore(e, b, c0, [c1] + ([c2] + []));
    RunMore(e, Step(e, b, c0), c1, [c2] + []);
    RunMore(e, Step(e, Step(e, b, c0), c1), c2, []);
  }

  /** Proposed, amended under another capability, proposed again: two live rules read back as one. */
  lemma ProposalMakesTwin(e: Engine)
    ensures var d, other := About(LEGAL, LEAVE_IT), About(FINANCE, LEAVE_IT);
            var b := Run(e, [], [Propose(d, BOTH), Amend(0, other, BOTH), Propose(d, BOTH)]);
            && |b| == 2 && Live(b[0]) && Live(b[1])
            && ReadBack(b[0]) == d == ReadBack(b[1])
            && b[0].digest != b[1].digest && !Digested(b[0])
  {
    var d, other := About(LEGAL, LEAVE_IT), About(FINANCE, LEAVE_IT);
    DraftPasses(e, LEGAL, LEAVE_IT);
    DraftPasses(e, FINANCE, LEAVE_IT);
    RunThree(e, [], Propose(d, BOTH), Amend(0, other, BOTH), Propose(d, BOTH));
    hide CheckDraft, Run;
    assert Step(e, [], Propose(d, BOTH)) == [NewRule(d)];
    assert Step(e, [NewRule(d)], Amend(0, other, BOTH)) == [Amended(NewRule(d), other)];
    assert Step(e, [Amended(NewRule(d), other)], Propose(d, BOTH)) == [Amended(NewRule(d), other), NewRule(d)];
  }

  /** Amended to the draft of another live rule: one digest, and two rules that read apart. */
  lemma SharedDigestReadsApart(e: Engine)
    ensures var d, other := About(LEGAL, LEAVE_IT), About(FINANCE, LEAVE_IT);
            var b := Run(e, [], [Propose(d, BOTH), Propose(other, BOTH), Amend(0, other, BOTH)]);
            && |b| == 2 && Live(b[0]) && Live(b[1])
            && b[0].digest == b[1].digest
            && ReadBack(b[0]) == d && ReadBack(b[1]) == other && d != other
  {
    var d, other := About(LEGAL, LEAVE_IT), About(FINANCE, LEAVE_IT);
    DraftPasses(e, LEGAL, LEAVE_IT);
    DraftPasses(e, FINANCE, LEAVE_IT);
    RunThree(e, [], Propose(d, BOTH), Propose(other, BOTH), Amend(0, other, BOTH));
    hide CheckDraft, Run;
    assert Step(e, [], Propose(d, BOTH)) == [NewRule(d)];
    assert Step(e, [NewRule(d)], Propose(other, BOTH)) == [NewRule(d), NewRule(other)];
    assert Step(e, [NewRule(d), NewRule(other)], Amend(0, other, BOTH)) == [Amended(NewRule(d), other), NewRule(other)];
  }

  lemma FilingNeedsGrant(e: Engine)
    ensures !CheckDraft(e, About(LEGAL, FILE_IT), BOTH)
  {
    assert FILE_IT in About(LEGAL, FILE_IT).effects;
    assert !EffectAllowed(FILE_IT, About(LEGAL, FILE_IT), BOTH);
  }

  /** Amended under a capability that may file, then put to work for one that may not. */
  lemma UngrantedRuleInForce(e: Engine)
    ensures var d, other := About(LEGAL, LEAVE_IT), About(FINANCE, FILE_IT);
            var b := Run(e, [], [Propose(d, BOTH), Amend(0, other, BOTH), Preview(0, 0)] + [Move(0, Confirmed, 1), Move(0, Active, 2)]);
            && |b| == 1 && b[0].status.Active? && Live(b[0])
            && ReadBack(b[0]) == About(LEGAL, FILE_IT) && !CheckDraft(e, ReadBack(b[0]), BOTH)
  {
    var d, other := About(LEGAL, LEAVE_IT), About(FINANCE, FILE_IT);
    DraftPasses(e, LEGAL, LEAVE_IT);
    DraftPasses(e, FINANCE, FILE_IT);
    FilingNeedsGrant(e);
    var c0, c1, c2, c3, c4 := Propose(d, BOTH), Amend(0, other, BOTH), Preview(0, 0), Move(0, Confirmed, 1), Move(0, Active, 2);
    RunMore(e, [], c0, [c1] + ([c2] + ([c3] + ([c4] + []))));
    hide CheckDraft, Run;
    var r1 := Amended(NewRule(d), other);
    var r2 := Moved(r1, Tested, 0);
    var r3 := Moved(r2, Confirmed, 1);
    assert Step(e, [], c0) == [NewRule(d)];
    assert Step(e, [NewRule(d)], c1) == [r1];
    assert Step(e, [r1], c2) == [r2];
    assert Step(e, [r2], c3) == [r3];
    assert Step(e, [r3], c4) == [Moved(r3, Active, 2)];
    RunMore(e, [NewRule(d)], c1, [c2] + ([c3] + ([c4] + [])));
    RunMore(e, [r1], c2, [c3] + ([c4] + []));
    RunMore(e, [r2], c3, [c4] + []);
    RunMore(e, [r3], c4, []);
    NothingRun(e, [Moved(r3, Active, 2)]);
    assert [c0, c1, c2] + [c3, c4] == [c0] + ([c1] + ([c2] + ([c3] + ([c4] + []))));
  }

  lemma NothingRun(e: Engine, b: Rulebook)
    ensures Run(e, b, []) == b
  {
  }
}
