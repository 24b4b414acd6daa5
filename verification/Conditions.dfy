/** Condition trees: what narrows, what matches, and why a tree that narrows cannot match everything. */
module Conditions {
  import opened Common
  import opened Text

  const MINIMUM_LITERAL := 4
  const MAXIMUM_DEPTH := 4

  datatype FieldKind = TextKind | TextsKind | NumberKind

  datatype Field = Subject | Participant | ParticipantDomain | Snippet | GmailLabel | Capability | ThreadAgeDays {
    function Kind(): FieldKind {
      match this
      case Subject => TextKind
      case Snippet => TextKind
      case Capability => TextKind
      case ThreadAgeDays => NumberKind
      case _ => TextsKind
    }

    predicate Narrowing() {
      Subject? || Participant? || ParticipantDomain? || Snippet?
    }
  }

  datatype Operator = Equals | NotEquals | Contains | NotContains | StartsWith | EndsWith | Regex | AtLeast | AtMost

  const NEGATIONS := {NotEquals, NotContains}
  const TEXT_OPERATORS := {Equals, NotEquals, Operator.Contains, NotContains, Operator.StartsWith, Operator.EndsWith, Regex}
  const NUMBER_OPERATORS := {Equals, AtLeast, AtMost}

  datatype Condition = Condition(field: Field, operator: Operator, value: string) {
    predicate WellFormed() {
      value != "" && operator in if field.Kind().NumberKind? then NUMBER_OPERATORS else TEXT_OPERATORS
    }
  }

  datatype Test = Leaf(condition: Condition) | Group(all: seq<Test>, any: seq<Test>, none: seq<Test>)

  /** The parts of Python a rule leans on: its regular expressions, folding and float parsing. */
  datatype Engine = Engine(
    search: (string, string) -> bool,
    groups: (string, string) -> map<string, string>,
    names: string -> set<string>,
    literal: string -> nat,
    fold: char -> string,
    number: string -> real)

  ghost predicate Lawful(e: Engine) {
    Folds(e.fold) && forall pattern, text :: e.groups(pattern, text).Keys <= e.names(pattern)
  }

  datatype Facts = Facts(
    subject: Option<string>,
    snippet: Option<string>,
    capability: Option<string>,
    participants: seq<string>,
    domains: seq<string>,
    labels: seq<string>,
    age: Option<real>)
  {
    function ReadText(f: Field): Option<string> {
      match f
      case Subject => subject
      case Snippet => snippet
      case Capability => capability
      case _ => None
    }

    function ReadList(f: Field): seq<string> {
      match f
      case Participant => participants
      case ParticipantDomain => domains
      case GmailLabel => labels
      case _ => []
    }
  }

  predicate PatternNarrows(e: Engine, pattern: string) {
    !e.search(pattern, "") && e.literal(pattern) >= MINIMUM_LITERAL
  }

  predicate Compare(e: Engine, op: Operator, value: string, wanted: string) {
    if op.Regex? then e.search(wanted, value)
    else
      var left, right := CaseFold(e.fold, value), CaseFold(e.fold, wanted);
      match op
      case Equals => left == right
      case NotEquals => left != right
      case Contains => Text.Contains(left, right)
      case NotContains => !Text.Contains(left, right)
      case StartsWith => Text.StartsWith(left, right)
      case EndsWith => Text.EndsWith(left, right)
      case _ => false
  }

  function Captures(e: Engine, op: Operator, value: string, wanted: string): map<string, string> {
    if op.Regex? && e.search(wanted, value)
    then var g := e.groups(wanted, value); map name | name in g && g[name] != "" :: g[name]
    else map[]
  }

  // ---------------------------------------------------------------- one condition

  predicate LeafNarrows(e: Engine, c: Condition) {
    if !c.field.Narrowing() || c.operator in NEGATIONS || c.field.Kind().NumberKind? then false
    else if c.operator.Regex? then PatternNarrows(e, c.value)
    else |Strip(c.value)| >= MINIMUM_LITERAL
  }

  datatype Outcome = Outcome(condition: Condition, matched: bool, captured: map<string, string>)

  predicate NumberMatches(op: Operator, value: real, wanted: real) {
    match op
    case Equals => value == wanted
    case AtLeast => value >= wanted
    case AtMost => value <= wanted
    case _ => false
  }

  /** The first value, if any, that satisfies the comparison. */
  function FirstMatch(e: Engine, c: Condition, values: seq<string>): Option<string> {
    if values == [] then None
    else if Compare(e, c.operator, values[0], c.value) then Some(values[0])
    else FirstMatch(e, c, values[1..])
  }

  function LeafOutcome(e: Engine, c: Condition, facts: Facts): Outcome {
    match c.field.Kind()
    case NumberKind =>
      Outcome(c, facts.age.Some? && NumberMatches(c.operator, facts.age.value, e.number(c.value)), map[])
    case TextsKind =>
      var values := facts.ReadList(c.field);
      if c.operator in NEGATIONS then
        Outcome(c, forall v :: v in values ==> Compare(e, c.operator, v, c.value), map[])
      else
        var first := FirstMatch(e, c, values);
        if first.None? then Outcome(c, false, map[])
        else Outcome(c, true, Captures(e, c.operator, first.value, c.value))
    case TextKind =>
      var text := facts.ReadText(c.field);
      if text.None? then Outcome(c, false, map[])
      else Outcome(c, Compare(e, c.operator, text.value, c.value), Captures(e, c.operator, text.value, c.value))
  }

  // ---------------------------------------------------------------- a tree of them

  predicate Narrows(e: Engine, t: Test) {
    match t
    case Leaf(c) => LeafNarrows(e, c)
    case Group(all, any, _) =>
      (exists x :: x in all && Narrows(e, x)) || (any != [] && forall x :: x in any ==> Narrows(e, x))
  }

  predicate Matches(e: Engine, t: Test, facts: Facts) {
    match t
    case Leaf(c) => LeafOutcome(e, c, facts).matched
    case Group(all, any, none) =>
      && (forall x :: x in all ==> Matches(e, x, facts))
      && (any == [] || exists x :: x in any && Matches(e, x, facts))
      && (forall x :: x in none ==> !Matches(e, x, facts))
  }

  function Outcomes(e: Engine, t: Test, facts: Facts): seq<Outcome>
    decreases t, 1
  {
    match t
    case Leaf(c) => [LeafOutcome(e, c, facts)]
    case Group(all, any, none) =>
      OutcomesOf(e, t, all, facts) + OutcomesOf(e, t, any, facts) + OutcomesOf(e, t, none, facts)
  }

  function OutcomesOf(e: Engine, ghost parent: Test, ts: seq<Test>, facts: Facts): seq<Outcome>
    requires forall k :: 0 <= k < |ts| ==> ts[k] < parent
    decreases parent, 0, |ts|
  {
    if ts == [] then []
    else OutcomesOf(e, parent, ts[..|ts| - 1], facts) + Outcomes(e, ts[|ts| - 1], facts)
  }

  /** What the patterns that matched captured, later ones overriding earlier. */
  function Merged(os: seq<Outcome>): map<string, string> {
    if os == [] then map[]
    else
      var front, last := Merged(os[..|os| - 1]), os[|os| - 1];
      if last.matched then front + last.captured else front
  }

  function Larger(a: nat, b: nat): nat {
    if a < b then b else a
  }

  function DepthOf(t: Test, level: nat): nat
    decreases t, 1
  {
    match t
    case Leaf(_) => level
    case Group(all, any, none) =>
      Larger(DeepestOf(t, all, level), Larger(DeepestOf(t, any, level), DeepestOf(t, none, level)))
  }

  function DeepestOf(ghost parent: Test, ts: seq<Test>, level: nat): nat
    requires forall k :: 0 <= k < |ts| ==> ts[k] < parent
    decreases parent, 0, |ts|
  {
    if ts == [] then level
    else Larger(DeepestOf(parent, ts[..|ts| - 1], level), DepthOf(ts[|ts| - 1], level + 1))
  }

  /** What the validators let through: nothing empty anywhere, and no group nested too deep. */
  predicate Accepted(t: Test) {
    match t
    case Leaf(c) => c.WellFormed()
    case Group(all, any, none) =>
      && (all != [] || any != [] || none != [])
      && DepthOf(t, 1) <= MAXIMUM_DEPTH
      && (forall x :: x in all ==> Accepted(x)) && (forall x :: x in any ==> Accepted(x))
      && (forall x :: x in none ==> Accepted(x))
  }

  /** A tree is refused unless something in it narrows. */
  predicate CheckBreadth(e: Engine, t: Test) {
    Narrows(e, t)
  }

  function CapturesOf(e: Engine, t: Test): set<string> {
    match t
    case Leaf(c) => e.names(c.value)
    case Group(all, any, none) =>
      (set x, name | x in all && name in CapturesOf(e, x) :: name)
      + (set x, name | x in any && name in CapturesOf(e, x) :: name)
      + (set x, name | x in none && name in CapturesOf(e, x) :: name)
  }

  // ---------------------------------------------------------------- depth

  /** Some test sits `n` levels below the top of this one. */
  ghost predicate Nests(t: Test, n: nat)
    decreases n, 0
  {
    n == 0 || (t.Group? && (AnyNests(t.all, n - 1) || AnyNests(t.any, n - 1) || AnyNests(t.none, n - 1)))
  }

  ghost predicate AnyNests(ts: seq<Test>, n: nat)
    decreases n, 1
  {
    exists x :: x in ts && Nests(x, n)
  }

  /** The depth counted is that of the deepest test. */
  lemma {:induction false} DepthIsDeepest(t: Test, level: nat, n: nat)
    ensures DepthOf(t, level) >= level + n <==> Nests(t, n)
    decreases t, 1
  {
    if t.Group? {
      ListIsDeepest(t, t.all, level, n);
      ListIsDeepest(t, t.any, level, n);
      ListIsDeepest(t, t.none, level, n);
      hide DeepestOf, AnyNests;
    }
  }

  lemma {:induction false} ListIsDeepest(parent: Test, ts: seq<Test>, level: nat, n: nat)
    requires forall k :: 0 <= k < |ts| ==> ts[k] < parent
    ensures DeepestOf(parent, ts, level) >= level
    ensures n > 0 ==> (DeepestOf(parent, ts, level) >= level + n <==> AnyNests(ts, n - 1))
    decreases parent, 0, |ts|
  {
    if ts != [] {
      var front, last := ts[..|ts| - 1], ts[|ts| - 1];
      ListIsDeepest(parent, front, level, n);
      hide Nests;
      if n > 0 {
        DepthIsDeepest(last, level + 1, n - 1);
        assert ts == front + [last];
        assert AnyNests(ts, n - 1) <==> AnyNests(front, n - 1) || Nests(last, n - 1);
      }
    }
  }

  /** An accepted tree has a test to make at every level and none more than three levels below its top. */
  lemma AcceptedIsShallow(t: Test)
    requires Accepted(t)
    ensures !Nests(t, MAXIMUM_DEPTH) && (t.Group? ==> Nests(t, 1))
  {
    if t.Group? {
      DepthIsDeepest(t, 1, MAXIMUM_DEPTH);
      hide DepthOf, Accepted;
      var x := if t.all != [] then t.all[0] else if t.any != [] then t.any[0] else t.none[0];
      assert x in t.all || x in t.any || x in t.none;
      assert Nests(x, 0);
    }
  }

  // ---------------------------------------------------------------- evaluation, as it runs

  /** Evaluates a list of tests, saying whether every one matched and whether any did. */
  method TestEach(e: Engine, ghost parent: Test, ts: seq<Test>, facts: Facts)
      returns (every: bool, some: bool, none: bool, outcomes: seq<Outcome>)
    requires forall k :: 0 <= k < |ts| ==> ts[k] < parent
    ensures every <==> forall x :: x in ts ==> Matches(e, x, facts)
    ensures some <==> exists x :: x in ts && Matches(e, x, facts)
    ensures none <==> forall x :: x in ts ==> !Matches(e, x, facts)
    ensures outcomes == OutcomesOf(e, parent, ts, facts)
    decreases parent, 0
  {
    every, some, none, outcomes := true, false, true, [];
    hide Matches;
    for n := 0 to |ts|
      invariant every <==> forall k :: 0 <= k < n ==> Matches(e, ts[k], facts)
      invariant some <==> exists k :: 0 <= k < n && Matches(e, ts[k], facts)
      invariant none <==> !some
      invariant outcomes == OutcomesOf(e, parent, ts[..n], facts)
    {
      assert ts[..n + 1][..n] == ts[..n];
      var m, os := TestTree(e, ts[n], facts);
      every, some, none, outcomes := every && m, some || m, none && !m, outcomes + os;
    }
    assert ts[..|ts|] == ts;
    hide OutcomesOf;
    forall x | x in ts
      ensures exists k :: 0 <= k < |ts| && ts[k] == x
    {
    }
  }

  method TestTree(e: Engine, t: Test, facts: Facts) returns (matched: bool, outcomes: seq<Outcome>)
    ensures matched == Matches(e, t, facts)
    ensures outcomes == Outcomes(e, t, facts)
    decreases t, 1
  {
    match t {
      case Leaf(c) =>
        var o := LeafOutcome(e, c, facts);
        return o.matched, [o];
      case Group(all, any, none) =>
        var every, some, nothing, os := TestEach(e, t, all, facts);
        matched, outcomes := every, os;
        every, some, nothing, os := TestEach(e, t, any, facts);
        outcomes := outcomes + os;
        if any != [] {
          matched := matched && some;
        }
        every, some, nothing, os := TestEach(e, t, none, facts);
        outcomes, matched := outcomes + os, matched && nothing;
    }
  }

  // ---------------------------------------------------------------- breadth is sound

  /** A narrowing condition in a positive position, satisfied by the item. */
  ghost predicate NarrowHit(e: Engine, t: Test, facts: Facts) {
    match t
    case Leaf(c) => LeafNarrows(e, c) && LeafOutcome(e, c, facts).matched
    case Group(all, any, _) =>
      (exists x :: x in all && NarrowHit(e, x, facts)) || (exists x :: x in any && NarrowHit(e, x, facts))
  }

  /** An item that says nothing: whatever its labels, group or age. */
  ghost predicate Blank(facts: Facts) {
    && facts.subject in {None, Some("")}
    && facts.snippet in {None, Some("")}
    && (forall v :: v in facts.participants ==> v == "")
    && (forall v :: v in facts.domains ==> v == "")
  }

  lemma {:induction false} MatchingIsNarrow(e: Engine, t: Test, facts: Facts)
    requires Narrows(e, t) && Matches(e, t, facts)
    ensures NarrowHit(e, t, facts)
  {
    match t
    case Leaf(_) =>
    case Group(all, any, none) =>
      if x :| x in all && Narrows(e, x) {
        MatchingIsNarrow(e, x, facts);
      } else {
        var x :| x in any && Matches(e, x, facts);
        MatchingIsNarrow(e, x, facts);
      }
  }

  lemma NarrowLeafRejectsEmpty(e: Engine, c: Condition)
    requires Lawful(e) && LeafNarrows(e, c)
    ensures !Compare(e, c.operator, "", c.value)
  {
    if !c.operator.Regex? {
      assert c.value != "" by {
        assert Strip("") == "";
      }
      CaseFoldEmpty(e.fold, c.value);
      assert CaseFold(e.fold, "") == "";
    }
  }

  lemma {:induction false} NoFirstMatch(e: Engine, c: Condition, values: seq<string>)
    requires !Compare(e, c.operator, "", c.value) && forall v :: v in values ==> v == ""
    ensures FirstMatch(e, c, values).None?
  {
    if values != [] {
      assert values[0] in values && forall v :: v in values[1..] ==> v in values;
      NoFirstMatch(e, c, values[1..]);
    }
  }

  lemma BlankMissesNarrowLeaf(e: Engine, c: Condition, facts: Facts)
    requires Lawful(e) && LeafNarrows(e, c) && Blank(facts)
    ensures !LeafOutcome(e, c, facts).matched
  {
    NarrowLeafRejectsEmpty(e, c);
    if c.field.Kind().TextsKind? {
      NoFirstMatch(e, c, facts.ReadList(c.field));
    }
  }

  lemma {:induction false} BlankHasNoHit(e: Engine, t: Test, facts: Facts)
    requires Lawful(e) && Blank(facts)
    ensures !NarrowHit(e, t, facts)
  {
    match t
    case Leaf(c) =>
      if LeafNarrows(e, c) {
        BlankMissesNarrowLeaf(e, c, facts);
      }
    case Group(all, any, _) =>
      forall x | x in all || x in any
        ensures !NarrowHit(e, x, facts)
      {
        BlankHasNoHit(e, x, facts);
      }
  }

  /**
   For every condition tree: one that passes the breadth check matches an item only where a
   narrowing condition in a positive position does, and so never an item with no subject, no
   preview, no address and no domain, whatever its labels, group or age.
   */
  lemma BreadthIsSound(e: Engine, t: Test, facts: Facts)
    requires Lawful(e) && CheckBreadth(e, t) && Matches(e, t, facts)
    ensures NarrowHit(e, t, facts) && !Blank(facts)
  {
    MatchingIsNarrow(e, t, facts);
    if Blank(facts) {
      BlankHasNoHit(e, t, facts);
    }
  }

  // ---------------------------------------------------------------- captures

  lemma {:induction false} OutcomesCaptureNames(e: Engine, t: Test, facts: Facts)
    requires Lawful(e)
    ensures forall o :: o in Outcomes(e, t, facts) ==> o.captured.Keys <= CapturesOf(e, t)
    decreases t, 1
  {
    match t
    case Leaf(_) =>
    case Group(all, any, none) =>
      OutcomesOfCaptureNames(e, t, all, facts);
      OutcomesOfCaptureNames(e, t, any, facts);
      OutcomesOfCaptureNames(e, t, none, facts);
  }

  lemma {:induction false} OutcomesOfCaptureNames(e: Engine, parent: Test, ts: seq<Test>, facts: Facts)
    requires Lawful(e) && forall k :: 0 <= k < |ts| ==> ts[k] < parent
    ensures forall o :: o in OutcomesOf(e, parent, ts, facts) ==>
              exists x :: x in ts && o.captured.Keys <= CapturesOf(e, x)
    decreases parent, 0, |ts|
  {
    if ts != [] {
      var front, last := ts[..|ts| - 1], ts[|ts| - 1];
      OutcomesOfCaptureNames(e, parent, front, facts);
      OutcomesCaptureNames(e, last, facts);
      forall o | o in OutcomesOf(e, parent, ts, facts)
        ensures exists x :: x in ts && o.captured.Keys <= CapturesOf(e, x)
      {
        if o in OutcomesOf(e, parent, front, facts) {
          var x :| x in front && o.captured.Keys <= CapturesOf(e, x);
          assert x in ts;
        } else {
          assert last in ts;
        }
      }
    }
  }

  lemma {:induction false} MergedKeys(os: seq<Outcome>, names: set<string>)
    requires forall o :: o in os ==> o.captured.Keys <= names
    ensures Merged(os).Keys <= names
  {
    if os != [] {
      MergedKeys(os[..|os| - 1], names);
      assert os[|os| - 1] in os;
    }
  }

  /** Whatever a match captures is among the names the tree was read to offer. */
  lemma CapturesAreOffered(e: Engine, t: Test, facts: Facts)
    requires Lawful(e)
    ensures Merged(Outcomes(e, t, facts)).Keys <= CapturesOf(e, t)
  {
    OutcomesCaptureNames(e, t, facts);
    MergedKeys(Outcomes(e, t, facts), CapturesOf(e, t));
  }

  // ---------------------------------------------------------------- what the operators mean

  /** Case folded, the text is the words, has them in it, or has them at an end. */
  lemma CompareExactlyWhen(e: Engine, value: string, wanted: string)
    ensures var text, words := CaseFold(e.fold, value), CaseFold(e.fold, wanted);
            && (Compare(e, Equals, value, wanted) <==> text == words)
            && (Compare(e, NotEquals, value, wanted) <==> text != words)
            && (Compare(e, Operator.StartsWith, value, wanted) <==> exists after :: text == words + after)
            && (Compare(e, Operator.EndsWith, value, wanted) <==> exists before :: text == before + words)
            && (Compare(e, Operator.Contains, value, wanted) <==>
                  exists before, after {:trigger before + words + after} :: text == before + words + after)
            && (Compare(e, NotContains, value, wanted) <==> !Compare(e, Operator.Contains, value, wanted))
            && (Compare(e, Regex, value, wanted) <==> e.search(wanted, value))
  {
    var text, words := CaseFold(e.fold, value), CaseFold(e.fold, wanted);
    StartsExactlyWhen(text, words);
    EndsExactlyWhen(text, words);
    ContainsExactlyWhen(text, words);
    hide CaseFold, Text.StartsWith, Text.EndsWith, Text.Contains;
  }

  /** At least and at most face opposite ways and meet only where the numbers are equal. */
  lemma NumbersExactlyWhen(value: real, wanted: real)
    ensures NumberMatches(AtLeast, value, wanted) <==> !(value < wanted)
    ensures NumberMatches(AtMost, value, wanted) <==> !(wanted < value)
    ensures NumberMatches(Equals, value, wanted) <==> NumberMatches(AtLeast, value, wanted) && NumberMatches(AtMost, value, wanted)
    ensures forall op :: op !in NUMBER_OPERATORS ==> !NumberMatches(op, value, wanted)
  {
  }

  lemma {:induction false} FirstMatchIsFirst(e: Engine, c: Condition, values: seq<string>)
    ensures FirstMatch(e, c, values).None? <==> forall k :: 0 <= k < |values| ==> !Compare(e, c.operator, values[k], c.value)
    ensures FirstMatch(e, c, values).Some? ==>
              exists n :: 0 <= n < |values| && values[n] == FirstMatch(e, c, values).value
                          && Compare(e, c.operator, values[n], c.value)
                          && forall k :: 0 <= k < n ==> !Compare(e, c.operator, values[k], c.value)
  {
    if values != [] && !Compare(e, c.operator, values[0], c.value) {
      FirstMatchIsFirst(e, c, values[1..]);
      hide Compare;
      assert forall k :: 0 <= k < |values| - 1 ==> values[1..][k] == values[k + 1];
      if FirstMatch(e, c, values[1..]).Some? {
        var n :| 0 <= n < |values[1..]| && values[1..][n] == FirstMatch(e, c, values[1..]).value
                 && Compare(e, c.operator, values[1..][n], c.value)
                 && forall k :: 0 <= k < n ==> !Compare(e, c.operator, values[1..][k], c.value);
        assert values[n + 1] == values[1..][n];
        assert forall k :: 1 <= k < n + 1 ==> values[k] == values[1..][k - 1];
      }
    }
  }

  /**
   A condition holds of an item when its number compares, its text is there and does, some value
   of its list does, or, said in the negative, every value does.
   */
  lemma LeafMatchesExactlyWhen(e: Engine, c: Condition, facts: Facts)
    ensures LeafOutcome(e, c, facts).matched <==>
              match c.field {
                case ThreadAgeDays => facts.age.Some? && NumberMatches(c.operator, facts.age.value, e.number(c.value))
                case Subject => facts.subject.Some? && Compare(e, c.operator, facts.subject.value, c.value)
                case Snippet => facts.snippet.Some? && Compare(e, c.operator, facts.snippet.value, c.value)
                case Capability => facts.capability.Some? && Compare(e, c.operator, facts.capability.value, c.value)
                case Participant => ListMatches(e, c, facts.participants)
                case ParticipantDomain => ListMatches(e, c, facts.domains)
                case GmailLabel => ListMatches(e, c, facts.labels)
              }
  {
    if c.field.Kind().TextsKind? {
      FirstMatchIsFirst(e, c, facts.ReadList(c.field));
    }
    hide Compare, NumberMatches;
  }

  ghost predicate ListMatches(e: Engine, c: Condition, values: seq<string>) {
    if c.operator.NotEquals? || c.operator.NotContains?
    then forall k :: 0 <= k < |values| ==> Compare(e, c.operator, values[k], c.value)
    else exists k :: 0 <= k < |values| && Compare(e, c.operator, values[k], c.value)
  }

  /** What is captured is what the pattern gives of the first value it finds, less what is empty. */
  lemma LeafCapturesExactlyWhen(e: Engine, c: Condition, facts: Facts, name: string)
    ensures name in LeafOutcome(e, c, facts).captured <==>
              && c.operator.Regex? && LeafOutcome(e, c, facts).matched
              && var groups := e.groups(c.value, MatchedText(e, c, facts));
                 name in groups && groups[name] != ""
    ensures name in LeafOutcome(e, c, facts).captured ==>
              LeafOutcome(e, c, facts).captured[name] == e.groups(c.value, MatchedText(e, c, facts))[name]
  {
    if c.field.Kind().TextsKind? {
      FirstMatchIsFirst(e, c, facts.ReadList(c.field));
    }
  }

  function MatchedText(e: Engine, c: Condition, facts: Facts): string {
    match c.field.Kind()
    case TextKind => if facts.ReadText(c.field).Some? then facts.ReadText(c.field).value else ""
    case TextsKind =>
      var first := FirstMatch(e, c, facts.ReadList(c.field));
      if first.Some? then first.value else ""
    case NumberKind => ""
  }

  // ---------------------------------------------------------------- what narrows, and what is read off a tree

  /** Fixed words about what a thread says or who sent it, enough of them, and not said in the negative. */
  lemma LeafNarrowsExactlyWhen(e: Engine, c: Condition)
    ensures LeafNarrows(e, c) <==>
              && c.field in {Subject, Participant, ParticipantDomain, Snippet}
              && c.operator !in {NotEquals, NotContains}
              && (if c.operator == Regex then !e.search(c.value, "") && e.literal(c.value) >= 4 else |Strip(c.value)| >= 4)
  {
  }

  /** The tree could be satisfied, as far as it asks for anything, without any condition that narrows. */
  predicate Evades(e: Engine, t: Test) {
    match t
    case Leaf(c) => !LeafNarrows(e, c)
    case Group(all, any, _) =>
      (forall x :: x in all ==> Evades(e, x)) && (any == [] || exists x :: x in any && Evades(e, x))
  }

  /** A tree is refused for breadth exactly when it could be satisfied without a narrowing condition. */
  lemma {:induction false} NarrowsExactlyWhen(e: Engine, t: Test)
    ensures Narrows(e, t) <==> !Evades(e, t)
  {
    match t
    case Leaf(_) =>
    case Group(all, any, _) =>
      forall x | x in all || x in any
        ensures Narrows(e, x) <==> !Evades(e, x)
      {
        NarrowsExactlyWhen(e, x);
      }
  }

  /** Some condition of the tree, wherever it stands, has the name in its wording. */
  ghost predicate ReadsOff(e: Engine, t: Test, name: string) {
    match t
    case Leaf(c) => name in e.names(c.value)
    case Group(all, any, none) =>
      || (exists x :: x in all && ReadsOff(e, x, name))
      || (exists x :: x in any && ReadsOff(e, x, name))
      || (exists x :: x in none && ReadsOff(e, x, name))
  }

  lemma {:induction false} OfferedExactlyWhen(e: Engine, t: Test, name: string)
    ensures name in CapturesOf(e, t) <==> ReadsOff(e, t, name)
  {
    match t
    case Leaf(_) =>
    case Group(all, any, none) =>
      forall x | x in all || x in any || x in none
        ensures name in CapturesOf(e, x) <==> ReadsOff(e, x, name)
      {
        OfferedExactlyWhen(e, x, name);
      }
      hide ReadsOff;
  }

  /** Of the conditions that matched and captured a name the last one gives it its value. */
  lemma {:induction false} MergedTakesLast(os: seq<Outcome>, name: string)
    ensures name in Merged(os) ==>
              exists n :: 0 <= n < |os| && os[n].matched && name in os[n].captured && os[n].captured[name] == Merged(os)[name]
                          && forall k :: n < k < |os| ==> !(os[k].matched && name in os[k].captured)
  {
    if name in Merged(os) {
      var front, last := os[..|os| - 1], os[|os| - 1];
      if last.matched && name in last.captured {
        assert os[|os| - 1] == last;
      } else {
        MergedTakesLast(front, name);
        var n :| 0 <= n < |front| && front[n].matched && name in front[n].captured
                 && front[n].captured[name] == Merged(front)[name]
                 && forall k :: n < k < |front| ==> !(front[k].matched && name in front[k].captured);
        assert os[n] == front[n] && forall k :: n < k < |front| ==> os[k] == front[k];
      }
    }
  }
}
