/** Whether a message can be filled in: which of the names a tree offers does a match capture? */
module Wording {
  import opened Common
  import opened Conditions

  /** A pattern that offers the name, on a field that is text. */
  predicate Offers(e: Engine, c: Condition, name: string) {
    c.operator.Regex? && !c.field.Kind().NumberKind? && name in e.names(c.value)
  }

  /** Patterns that match have something to say under each of their names. */
  ghost predicate Capturing(e: Engine) {
    forall pattern, text :: e.search(pattern, text) ==>
      forall name :: name in e.names(pattern) ==>
        name in e.groups(pattern, text) && e.groups(pattern, text)[name] != ""
  }

  /** One of the tests that must hold is sure to capture the name, or all of those of which one must. */
  predicate Sure(e: Engine, t: Test, name: string) {
    match t
    case Leaf(c) => Offers(e, c, name)
    case Group(all, any, _) =>
      (exists x :: x in all && Sure(e, x, name)) || (any != [] && forall x :: x in any ==> Sure(e, x, name))
  }

  /** What the check asks of a name is necessary for this. */
  lemma {:induction false} SureIsOffered(e: Engine, t: Test, name: string)
    requires Sure(e, t, name)
    ensures name in CapturesOf(e, t)
  {
    match t
    case Leaf(_) =>
    case Group(all, any, none) =>
      if x :| x in all && Sure(e, x, name) {
        SureIsOffered(e, x, name);
      } else {
        assert any[0] in any;
        SureIsOffered(e, any[0], name);
      }
  }

  // ---------------------------------------------------------------- one item

  /** Some condition of the tree held of the item and captured the name from it. */
  ghost predicate Caught(e: Engine, t: Test, facts: Facts, name: string) {
    match t
    case Leaf(c) => LeafOutcome(e, c, facts).matched && name in LeafOutcome(e, c, facts).captured
    case Group(all, any, none) =>
      || (exists x :: x in all && Caught(e, x, facts, name))
      || (exists x :: x in any && Caught(e, x, facts, name))
      || (exists x :: x in none && Caught(e, x, facts, name))
  }

  ghost predicate Shows(os: seq<Outcome>, name: string) {
    exists o :: o in os && o.matched && name in o.captured
  }

  lemma ShowsEither(a: seq<Outcome>, b: seq<Outcome>, name: string)
    ensures Shows(a + b, name) <==> Shows(a, name) || Shows(b, name)
  {
    if Shows(a, name) {
      var o :| o in a && o.matched && name in o.captured;
      assert o in a + b;
    }
    if Shows(b, name) {
      var o :| o in b && o.matched && name in o.captured;
      assert o in a + b;
    }
  }

  /** A name once captured stays, whatever overrides its value. */
  lemma {:induction false} MergedShows(os: seq<Outcome>, name: string)
    ensures name in Merged(os) <==> Shows(os, name)
  {
    if os != [] {
      var front, last := os[..|os| - 1], os[|os| - 1];
      MergedShows(front, name);
      ShowsEither(front, [last], name);
      assert os == front + [last];
      assert Shows([last], name) <==> last.matched && name in last.captured by {
        assert last in [last];
      }
    }
  }

  lemma {:induction false} OutcomesShow(e: Engine, t: Test, facts: Facts, name: string)
    ensures Shows(Outcomes(e, t, facts), name) <==> Caught(e, t, facts, name)
    decreases t, 1
  {
    match t
    case Leaf(c) =>
      assert LeafOutcome(e, c, facts) in [LeafOutcome(e, c, facts)];
    case Group(all, any, none) =>
      hide Shows;
      OutcomesOfShow(e, t, all, facts, name);
      OutcomesOfShow(e, t, any, facts, name);
      OutcomesOfShow(e, t, none, facts, name);
      var a, b, c := OutcomesOf(e, t, all, facts), OutcomesOf(e, t, any, facts), OutcomesOf(e, t, none, facts);
      ShowsEither(a, b, name);
      ShowsEither(a + b, c, name);
  }

  lemma {:induction false} OutcomesOfShow(e: Engine, parent: Test, ts: seq<Test>, facts: Facts, name: string)
    requires forall k :: 0 <= k < |ts| ==> ts[k] < parent
    ensures Shows(OutcomesOf(e, parent, ts, facts), name) <==> exists x :: x in ts && Caught(e, x, facts, name)
    decreases parent, 0, |ts|
  {
    if ts != [] {
      var front, last := ts[..|ts| - 1], ts[|ts| - 1];
      OutcomesOfShow(e, parent, front, facts, name);
      OutcomesShow(e, last, facts, name);
      ShowsEither(OutcomesOf(e, parent, front, facts), Outcomes(e, last, facts), name);
      hide Shows, Caught;
      assert ts == front + [last];
    }
  }

  /** A message finds a name filled in exactly when a condition that held captured it. */
  lemma CapturedExactlyWhen(e: Engine, t: Test, facts: Facts, name: string)
    ensures name in Merged(Outcomes(e, t, facts)) <==> Caught(e, t, facts, name)
  {
    MergedShows(Outcomes(e, t, facts), name);
    OutcomesShow(e, t, facts, name);
  }

  // ---------------------------------------------------------------- when a match captures it

  lemma {:induction false} FirstMatchCompares(e: Engine, c: Condition, values: seq<string>)
    ensures FirstMatch(e, c, values).Some? ==> Compare(e, c.operator, FirstMatch(e, c, values).value, c.value)
  {
    if values != [] {
      FirstMatchCompares(e, c, values[1..]);
    }
  }

  lemma {:induction false} SureIsCaught(e: Engine, t: Test, facts: Facts, name: string)
    requires Capturing(e) && Sure(e, t, name) && Matches(e, t, facts)
    ensures Caught(e, t, facts, name)
  {
    match t
    case Leaf(c) =>
      if c.field.Kind().TextsKind? {
        FirstMatchCompares(e, c, facts.ReadList(c.field));
      }
    case Group(all, any, none) =>
      if x :| x in all && Sure(e, x, name) {
        SureIsCaught(e, x, facts, name);
      } else {
        var x :| x in any && Matches(e, x, facts);
        SureIsCaught(e, x, facts, name);
      }
  }

  /** For every tree and item: a name the tree is sure of is captured by every match. */
  lemma SureIsCaptured(e: Engine, t: Test, facts: Facts, name: string)
    requires Capturing(e) && Sure(e, t, name) && Matches(e, t, facts)
    ensures name in Merged(Outcomes(e, t, facts))
  {
    SureIsCaught(e, t, facts, name);
    CapturedExactlyWhen(e, t, facts, name);
  }

  // ---------------------------------------------------------------- when it need not

  /** Python's expressions might match otherwise, but offer the same names; the rest is the same. */
  ghost predicate Alike(a: Engine, b: Engine) {
    a.names == b.names && a.fold == b.fold && a.number == b.number
  }

  predicate Present(field: Field, facts: Facts) {
    match field.Kind()
    case TextKind => facts.ReadText(field).Some?
    case TextsKind => facts.ReadList(field) != []
    case NumberKind => false
  }

  /** What the tree must not match fails: by a pattern with the name or one of `out`, another condition, or what it excludes. */
  ghost predicate Barred(e: Engine, t: Test, facts: Facts, name: string, out: set<string>) {
    match t
    case Leaf(c) =>
      if c.operator.Regex? then !Present(c.field, facts) || Offers(e, c, name) || c.value in out
      else !LeafOutcome(e, c, facts).matched
    case Group(all, any, none) =>
      || (exists x :: x in all && Barred(e, x, facts, name, out))
      || (any != [] && forall x :: x in any ==> Barred(e, x, facts, name, out))
      || (exists x :: x in none && LeftToPatterns(e, x, facts, name, out) && !Sure(e, x, name))
  }

  /**
   The item has what the patterns read, and the other conditions leave it to them whether it
   matches, where those of `out` do not; of alternatives it is enough that they leave it to one, an
   unsure one if there is one.
   */
  ghost predicate LeftToPatterns(e: Engine, t: Test, facts: Facts, name: string, out: set<string>) {
    match t
    case Leaf(c) => if c.operator.Regex? then Present(c.field, facts) && c.value !in out else LeafOutcome(e, c, facts).matched
    case Group(all, any, none) =>
      && (forall x :: x in all ==> LeftToPatterns(e, x, facts, name, out))
      && (any != [] ==>
            exists x :: x in any && LeftToPatterns(e, x, facts, name, out)
                        && (!Sure(e, x, name) || forall y :: y in any ==> Sure(e, y, name)))
      && (forall x :: x in none ==> Barred(e, x, facts, name, out))
  }

  /** The expressions that offer the name and those of `out` match nothing, and the others everything. */
  function Without(e: Engine, name: string, out: set<string>): (r: Engine)
    ensures Capturing(r) && Alike(r, e)
  {
    e.(search := (pattern, text) => name !in e.names(pattern) && pattern !in out,
       groups := (pattern, text) => map n | n in e.names(pattern) :: "-")
  }

  lemma {:induction false} FirstOfSame(e: Engine, r: Engine, c: Condition, values: seq<string>)
    requires Alike(r, e) && !c.operator.Regex?
    ensures FirstMatch(r, c, values) == FirstMatch(e, c, values)
  {
    if values != [] {
      FirstOfSame(e, r, c, values[1..]);
    }
  }

  lemma OtherLeavesSame(e: Engine, r: Engine, c: Condition, facts: Facts)
    requires Alike(r, e) && !c.operator.Regex?
    ensures LeafOutcome(r, c, facts).matched == LeafOutcome(e, c, facts).matched
  {
    FirstOfSame(e, r, c, facts.ReadList(c.field));
    assert forall v :: Compare(r, c.operator, v, c.value) == Compare(e, c.operator, v, c.value);
  }

  lemma {:induction false} NoneFirst(e: Engine, c: Condition, values: seq<string>)
    requires forall v :: v in values ==> !Compare(e, c.operator, v, c.value)
    ensures FirstMatch(e, c, values).None?
  {
    if values != [] {
      assert values[0] in values && forall v :: v in values[1..] ==> v in values;
      NoneFirst(e, c, values[1..]);
    }
  }

  lemma {:induction false} BarredWithout(e: Engine, t: Test, facts: Facts, name: string, out: set<string>)
    requires Barred(e, t, facts, name, out)
    ensures !Matches(Without(e, name, out), t, facts)
  {
    match t
    case Leaf(c) =>
      if c.operator.Regex? {
        if Offers(e, c, name) || c.value in out {
          NoneFirst(Without(e, name, out), c, facts.ReadList(c.field));
        }
      } else {
        OtherLeavesSame(e, Without(e, name, out), c, facts);
      }
    case Group(all, any, none) =>
      if x :| x in all && Barred(e, x, facts, name, out) {
        BarredWithout(e, x, facts, name, out);
      } else if x :| x in none && LeftToPatterns(e, x, facts, name, out) && !Sure(e, x, name) {
        MatchesWithout(e, x, facts, name, out);
      } else {
        forall x | x in any
          ensures !Matches(Without(e, name, out), x, facts)
        {
          BarredWithout(e, x, facts, name, out);
        }
      }
  }

  lemma {:induction false} MatchesWithout(e: Engine, t: Test, facts: Facts, name: string, out: set<string>)
    requires LeftToPatterns(e, t, facts, name, out) && !Sure(e, t, name)
    ensures Matches(Without(e, name, out), t, facts)
  {
    match t
    case Leaf(c) =>
      if !c.operator.Regex? {
        OtherLeavesSame(e, Without(e, name, out), c, facts);
      }
    case Group(all, any, none) =>
      forall x | x in all
        ensures Matches(Without(e, name, out), x, facts)
      {
        MatchesWithout(e, x, facts, name, out);
      }
      if any != [] {
        var x :| x in any && LeftToPatterns(e, x, facts, name, out) && !Sure(e, x, name);
        MatchesWithout(e, x, facts, name, out);
      }
      forall x | x in none
        ensures !Matches(Without(e, name, out), x, facts)
      {
        BarredWithout(e, x, facts, name, out);
      }
  }

  lemma {:induction false} NothingCaughtWithout(e: Engine, t: Test, facts: Facts, name: string, out: set<string>)
    ensures !Caught(Without(e, name, out), t, facts, name)
  {
    match t
    case Leaf(c) =>
      FirstMatchCompares(Without(e, name, out), c, facts.ReadList(c.field));
    case Group(all, any, none) =>
      forall x | x in all || x in any || x in none
        ensures !Caught(Without(e, name, out), x, facts, name)
      {
        NothingCaughtWithout(e, x, facts, name, out);
      }
  }

  /** Every match, however the expressions come to match, captures the name. */
  ghost predicate AlwaysCaptured(e: Engine, t: Test, facts: Facts, name: string) {
    Matches(e, t, facts) ==> name in Merged(Outcomes(e, t, facts))
  }

  /**
   Where it is left to the patterns what matches, the name is captured by every match, under
   every engine offering the same names, exactly when the tree is sure of it.
   */
  lemma AlwaysCapturedExactlyWhen(e: Engine, t: Test, facts: Facts, name: string, out: set<string>)
    requires LeftToPatterns(e, t, facts, name, out)
    ensures (forall r: Engine, f :: Alike(r, e) && Capturing(r) ==> AlwaysCaptured(r, t, f, name)) <==> Sure(e, t, name)
  {
    hide Capturing, Matches, Merged, Outcomes;
    if Sure(e, t, name) {
      forall r: Engine, f | Alike(r, e) && Capturing(r)
        ensures AlwaysCaptured(r, t, f, name)
      {
        SureAlike(r, e, t, name);
        if Matches(r, t, f) {
          SureIsCaptured(r, t, f, name);
        }
      }
    } else {
      var r := Without(e, name, out);
      MatchesWithout(e, t, facts, name, out);
      NothingCaughtWithout(e, t, facts, name, out);
      CapturedExactlyWhen(r, t, facts, name);
      assert !AlwaysCaptured(r, t, facts, name);
    }
  }

  lemma {:induction false} SureAlike(r: Engine, e: Engine, t: Test, name: string)
    requires Alike(r, e)
    ensures Sure(r, t, name) <==> Sure(e, t, name)
  {
    match t
    case Leaf(_) =>
    case Group(all, any, _) =>
      forall x | x in all || x in any
        ensures Sure(r, x, name) <==> Sure(e, x, name)
      {
        SureAlike(r, e, x, name);
      }
  }

  // ---------------------------------------------------------------- the names that are offered all the same

  /** A condition that offers the name and could capture it in a match, or beside one. */
  predicate Could(e: Engine, t: Test, name: string, matched: bool) {
    match t
    case Leaf(c) => Offers(e, c, name)
    case Group(all, any, none) =>
      || (exists x :: x in all && Could(e, x, name, matched))
      || (exists x :: x in any && Could(e, x, name, false))
      || (exists x :: x in none && (x.Group? || !matched) && Could(e, x, name, false))
  }

  lemma {:induction false} CaughtCould(e: Engine, t: Test, facts: Facts, name: string, matched: bool)
    requires Lawful(e) && Caught(e, t, facts, name) && (matched ==> Matches(e, t, facts))
    ensures Could(e, t, name, matched)
  {
    match t
    case Leaf(c) =>
    case Group(all, any, none) =>
      if x :| x in all && Caught(e, x, facts, name) {
        CaughtCould(e, x, facts, name, matched);
      } else if x :| x in any && Caught(e, x, facts, name) {
        CaughtCould(e, x, facts, name, false);
      } else {
        var x :| x in none && Caught(e, x, facts, name);
        CaughtCould(e, x, facts, name, false);
      }
  }

  /**
   So no match captures a name that only conditions other than patterns offer, or only patterns
   that must not match, though the check counts both as captures.
   */
  lemma NeverCaptured(e: Engine, t: Test, facts: Facts, name: string)
    requires Lawful(e) && Matches(e, t, facts) && !Could(e, t, name, true)
    ensures name !in Merged(Outcomes(e, t, facts))
  {
    CapturedExactlyWhen(e, t, facts, name);
    if Caught(e, t, facts, name) {
      CaughtCould(e, t, facts, name, true);
    }
  }

  function AboutSubject(subject: string): Facts {
    Facts(Some(subject), None, None, [], [], [], None)
  }

  /** A name read off words to be compared with, not matched against, is offered and never captured. */
  lemma NotAPatternNeverCaptures(e: Engine, wording: string, name: string)
    requires Lawful(e) && name in e.names(wording)
    ensures var t := Group([Leaf(Condition(Subject, Equals, wording))], [], []);
            && name in CapturesOf(e, t)
            && Matches(e, t, AboutSubject(wording))
            && name !in Merged(Outcomes(e, t, AboutSubject(wording)))
  {
    var c := Condition(Subject, Equals, wording);
    var t := Group([Leaf(c)], [], []);
    assert Leaf(c) in t.all && name in CapturesOf(e, Leaf(c));
    NeverCaptured(e, t, AboutSubject(wording), name);
  }

  /** A name of a pattern the item must not match is offered and never captured. */
  lemma ExcludedPatternNeverCaptures(e: Engine, pattern: string, word: string, name: string)
    requires Lawful(e) && name in e.names(pattern) && !e.search(pattern, word)
    ensures var t := Group([Leaf(Condition(Subject, Equals, word))], [], [Leaf(Condition(Subject, Regex, pattern))]);
            && name in CapturesOf(e, t)
            && Matches(e, t, AboutSubject(word))
            && name !in Merged(Outcomes(e, t, AboutSubject(word)))
  {
    var a, b := Condition(Subject, Equals, word), Condition(Subject, Regex, pattern);
    var t := Group([Leaf(a)], [], [Leaf(b)]);
    assert Leaf(b) in t.none && name in CapturesOf(e, Leaf(b));
    NeverCaptured(e, t, AboutSubject(word), name);
  }

  /** Of two alternatives, the one that matched need not be the one whose pattern has the name. */
  lemma OfferedMayNotBeCaptured(e: Engine, pattern: string, word: string, name: string)
    requires name in e.names(pattern) && !e.search(pattern, word)
    ensures var t := Group([], [Leaf(Condition(Subject, Regex, pattern)), Leaf(Condition(Subject, Equals, word))], []);
            && Matches(e, t, AboutSubject(word))
            && name in CapturesOf(e, t)
            && name !in Merged(Outcomes(e, t, AboutSubject(word)))
  {
    var a, b := Condition(Subject, Regex, pattern), Condition(Subject, Equals, word);
    var t := Group([], [Leaf(a), Leaf(b)], []);
    CapturedExactlyWhen(e, t, AboutSubject(word), name);
    assert Leaf(b) in t.any && Matches(e, Leaf(b), AboutSubject(word));
    assert Leaf(a) in t.any && name in CapturesOf(e, Leaf(a));
  }

  /** A pattern that matches need not have anything under a name that is optional in it. */
  lemma OptionalNameMayNotBeCaptured(e: Engine, pattern: string, word: string, name: string)
    requires name in e.names(pattern) && e.search(pattern, word)
    requires name in e.groups(pattern, word) ==> e.groups(pattern, word)[name] == ""
    ensures var t := Group([Leaf(Condition(Subject, Regex, pattern))], [], []);
            && Sure(e, t, name) && name in CapturesOf(e, t)
            && Matches(e, t, AboutSubject(word))
            && name !in Merged(Outcomes(e, t, AboutSubject(word)))
  {
    var c := Condition(Subject, Regex, pattern);
    var t := Group([Leaf(c)], [], []);
    CapturedExactlyWhen(e, t, AboutSubject(word), name);
    assert Leaf(c) in t.all && name in CapturesOf(e, Leaf(c));
  }
}
