/** What playbook changes keep, what a move does, and what `renumber` undoes of one. */
module PlaybookEdits {
  import opened Common
  import opened Sorting
  import opened Playbook

  function StepKey(s: Step): string {
    s.key
  }

  function ActivityKey(a: Activity): string {
    a.key
  }

  function Keys<T>(s: seq<T>, key: T -> string): (r: seq<string>)
    ensures |r| == |s| && forall i :: 0 <= i < |s| ==> r[i] == key(s[i])
  {
    seq(|s|, i requires 0 <= i < |s| => key(s[i]))
  }

  predicate StepsDiffer(a: Step, b: Step) {
    a.key != b.key
  }

  predicate ActivitiesDiffer(a: Activity, b: Activity) {
    a.key != b.key
  }

  ghost predicate UniqueSteps(s: seq<Step>) {
    Pairwise(s, StepsDiffer)
  }

  ghost predicate UniqueActivities(s: seq<Activity>) {
    Pairwise(s, ActivitiesDiffer) && forall a :: a in s ==> UniqueSteps(a.steps)
  }

  ghost predicate StepsInOrder(s: seq<Step>) {
    forall i :: 0 <= i < |s| ==> s[i].order == (i + 1) * ORDER_STEP
  }

  /** Positions 10, 20, ..., 10n at both levels, in the order the lists are stored. */
  ghost predicate InOrder(s: seq<Activity>) {
    forall i :: 0 <= i < |s| ==> s[i].order == (i + 1) * ORDER_STEP && StepsInOrder(s[i].steps)
  }

  // ---------------------------------------------------------------- every accepted change

  lemma SortedStepsStayUnique(s: seq<Step>)
    requires UniqueSteps(s)
    ensures UniqueSteps(StableSort(s, StepLeq))
  {
    SortKeepsPairwise(s, StepLeq, StepsDiffer);
  }

  lemma SortedActivitiesStayUnique(s: seq<Activity>)
    requires UniqueActivities(s)
    ensures UniqueActivities(StableSort(s, ActivityLeq))
  {
    SortKeepsPairwise(s, ActivityLeq, ActivitiesDiffer);
    SortElements(s, ActivityLeq);
    MembersOf(StableSort(s, ActivityLeq), s);
  }

  lemma RenumberedStepsAreInOrder(s: seq<Step>)
    ensures StepsInOrder(RenumberSteps(s))
    ensures UniqueSteps(s) ==> UniqueSteps(RenumberSteps(s))
  {
    SortElements(s, StepLeq);
    if UniqueSteps(s) {
      SortedStepsStayUnique(s);
    }
  }

  lemma RenumberedIsInOrder(s: seq<Activity>)
    ensures InOrder(Renumbered(s))
    ensures UniqueActivities(s) ==> UniqueActivities(Renumbered(s))
  {
    forall i | 0 <= i < |s|
      ensures StepsInOrder(Renumbered(s)[i].steps)
      ensures UniqueSteps(s[i].steps) ==> UniqueSteps(Renumbered(s)[i].steps)
    {
      RenumberedStepsAreInOrder(s[i].steps);
    }
    if UniqueActivities(s) {
      assert forall i :: 0 <= i < |s| ==> s[i] in s;
    }
  }

  lemma DroppedPairwise<T(!new)>(s: seq<T>, i: nat, rel: (T, T) -> bool)
    requires i < |s| && Pairwise(s, rel)
    ensures Pairwise(Drop(s, i), rel)
  {
  }

  lemma MovedPairwise<T(!new)>(s: seq<T>, i: nat, to: nat, rel: (T, T) -> bool)
    requires i < |s| && to < |s| && Pairwise(s, rel)
    requires forall x, y :: rel(x, y) ==> rel(y, x)
    ensures Pairwise(Moved(s, i, to), rel)
  {
    DroppedPairwise(s, i, rel);
    var d := Drop(s, i);
    assert forall k :: 0 <= k < |d| ==> rel(s[i], d[k]) && rel(d[k], s[i]);
  }

  lemma MovedElements<T(!new)>(s: seq<T>, i: nat, to: nat)
    requires i < |s| && to < |s|
    ensures multiset(Moved(s, i, to)) == multiset(s)
    ensures |Moved(s, i, to)| == |s|
  {
    assert s == s[..i] + [s[i]] + s[i + 1..];
    var d := Drop(s, i);
    assert d == d[..to] + d[to..];
    calc {
      multiset(Moved(s, i, to));
      multiset(d[..to] + d[to..]) + multiset{s[i]};
      multiset(d) + multiset{s[i]};
      multiset(s[..i] + [s[i]] + s[i + 1..]);
      multiset(s);
    }
  }

  lemma ReplacedStaysUnique(s: seq<Activity>, i: nat, a: Activity)
    requires UniqueActivities(s) && i < |s| && a.key == s[i].key && UniqueSteps(a.steps)
    ensures UniqueActivities(s[i := a])
  {
    assert forall x :: x in s[i := a] ==> x == a || x in s;
  }

  lemma RewrittenStepsStayUnique(a: Activity, c: Change, loaded: Loaded)
    requires UniqueSteps(a.steps) && (c.EnableStep? || c.MoveStep? || c.AddStep? || c.RemoveStep?)
    ensures var r := RewriteSteps(a, c, loaded); r.Some? ==> UniqueSteps(r.value)
  {
    SortedStepsStayUnique(a.steps);
    var at := FindStep(a.steps, c.step);
    if c.MoveStep? {
      var ordered := StableSort(a.steps, StepLeq);
      var at, beside := FindStep(ordered, c.step), FindStep(ordered, c.anchor.key);
      if at.Some? && beside.Some? && at != beside {
        MovedPairwise(ordered, at.value, Target(at.value, beside.value, c.anchor.After?), StepsDiffer);
      }
    } else if c.RemoveStep? && at.Some? {
      DroppedPairwise(a.steps, at.value, StepsDiffer);
    }
  }

  /** The registry is a table of distinct keys, each with distinct steps. */
  lemma RegistryIsDistinct(key: string)
    ensures var k := KnownActivity(key); k.Some? ==> k.value.key == key && Distinct(k.value.steps)
  {
    var ks := ACTIVITIES;
    KnownIsListed(ks, key);
    hide KnownFrom;
    assert forall k :: k in ks ==> Distinct(k.steps);
  }

  lemma {:induction false} KnownIsListed(kinds: seq<ActivityKind>, key: string)
    ensures var k := KnownFrom(kinds, key); k.Some? ==> k.value in kinds && k.value.key == key
  {
    if kinds != [] {
      KnownIsListed(kinds[1..], key);
    }
  }

  lemma RewrittenStaysUnique(s: seq<Activity>, c: Change, loaded: Loaded)
    requires UniqueActivities(s) && !SourceChange(c)
    ensures var r := Rewrite(s, c, loaded); r.Some? ==> UniqueActivities(r.value)
  {
    var at := FindActivity(s, c.activity);
    if c.EnableActivity? {
      if at.Some? {
        ReplacedStaysUnique(s, at.value, s[at.value].(enabled := c.enable));
      } else if KnownActivity(c.activity).Some? {
        RegistryIsDistinct(c.activity);
        var a := Added(KnownActivity(c.activity).value, s);
        assert forall x :: x in s + [a] ==> x in s || x == a;
      }
    } else if at.Some? {
      assert s[at.value] in s;
      if c.MoveActivity? {
        var beside := FindActivity(s, c.anchor.key);
        if beside.Some? && beside != at {
          var to := Target(at.value, beside.value, c.anchor.After?);
          MovedPairwise(s, at.value, to, ActivitiesDiffer);
          MovedElements(s, at.value, to);
          MembersOf(Moved(s, at.value, to), s);
        }
      } else if c.UpdateIntro? {
        ReplacedStaysUnique(s, at.value, s[at.value].(intro := c.intro));
      } else {
        RewrittenStepsStayUnique(s[at.value], c, loaded);
        var steps := RewriteSteps(s[at.value], c, loaded);
        if steps.Some? {
          ReplacedStaysUnique(s, at.value, s[at.value].(steps := steps.value));
        }
      }
    }
  }

  lemma {:induction false} EachKeepsKeys(d: Document, changes: seq<Change>, loaded: Loaded)
    requires UniqueActivities(d.activities)
    ensures var r := ApplyEach(d, changes, loaded); r.Some? ==> UniqueActivities(r.value.activities)
    decreases |changes|
  {
    if changes != [] {
      var c := changes[0];
      if !SourceChange(c) {
        SortedActivitiesStayUnique(d.activities);
        RewrittenStaysUnique(Ordered(d), c, loaded);
        var s := Rewrite(Ordered(d), c, loaded);
        if s.Some? {
          RenumberedIsInOrder(s.value);
        }
      }
      var first := ApplyChange(d, c, loaded);
      if first.Some? {
        EachKeepsKeys(first.value, changes[1..], loaded);
      }
    }
  }

  /**
   From any document with distinct keys, every accepted list of changes leaves distinct
   activity and step keys, positions exactly 10, 20, ..., 10n at both levels, and lists
   stored in that order.
   */
  lemma AcceptedChangesNormalise(d: Document, changes: seq<Change>, loaded: Loaded)
    requires UniqueActivities(d.activities)
    ensures var r := ApplyChanges(d, changes, loaded);
            r.Some? ==> UniqueActivities(r.value.activities) && InOrder(r.value.activities)
  {
    EachKeepsKeys(d, changes, loaded);
    var worked := ApplyEach(d, changes, loaded);
    if worked.Some? {
      RenumberedIsInOrder(worked.value.activities);
    }
  }

  // ---------------------------------------------------------------- documents already in order

  lemma StepsInOrderAreSorted(s: seq<Step>)
    requires StepsInOrder(s)
    ensures StableSort(s, StepLeq) == s && RenumberSteps(s) == s
  {
    SortOfSorted(s, StepLeq);
  }

  lemma InOrderIsSorted(s: seq<Activity>)
    requires InOrder(s)
    ensures StableSort(s, ActivityLeq) == s && Renumbered(s) == s
  {
    SortOfSorted(s, ActivityLeq);
    forall i | 0 <= i < |s|
      ensures Renumbered(s)[i] == s[i]
    {
      StepsInOrderAreSorted(s[i].steps);
    }
  }

  /** Renumbering twice is renumbering once. */
  lemma RenumberedTwice(s: seq<Activity>)
    ensures Renumbered(Renumbered(s)) == Renumbered(s)
  {
    RenumberedIsInOrder(s);
    InOrderIsSorted(Renumbered(s));
  }

  // ---------------------------------------------------------------- moving an activity

  lemma FoundActivity(s: seq<Activity>, i: nat)
    requires i < |s| && Pairwise(s, ActivitiesDiffer)
    ensures FindActivity(s, s[i].key) == Some(i)
  {
    forall k | 0 <= k < i
      ensures s[k].key != s[i].key
    {
      assert ActivitiesDiffer(s[k], s[i]);
    }
  }

  ghost predicate BesideAt(was: seq<string>, now: seq<string>, key: string, anchor: Anchor, i: nat, p: nat) {
    && i < |was| && p < |now| && was[i] == key && now[p] == key
    && Drop(was, i) == Drop(now, p)
    && (anchor.Before? ==> p + 1 < |now| && now[p + 1] == anchor.key)
    && (anchor.After? ==> p > 0 && now[p - 1] == anchor.key)
  }

  /** The key stands immediately before or after its anchor, and nothing else changed place. */
  ghost predicate PutBeside(was: seq<string>, now: seq<string>, key: string, anchor: Anchor) {
    exists i: nat, p: nat :: BesideAt(was, now, key, anchor, i, p)
  }

  lemma MovedIsBeside<T(!new)>(s: seq<T>, key: T -> string, i: nat, j: nat, anchor: Anchor)
    requires i < |s| && j < |s| && i != j && key(s[j]) == anchor.key
    ensures PutBeside(Keys(s, key), Keys(Moved(s, i, Target(i, j, anchor.After?)), key), key(s[i]), anchor)
  {
    var p := Target(i, j, anchor.After?);
    var moved := Moved(s, i, p);
    var was, now := Keys(s, key), Keys(moved, key);
    var q := if j < i then j else j - 1;
    assert Drop(s, i)[q] == s[j];
    assert anchor.Before? ==> moved[p + 1] == s[j];
    assert anchor.After? ==> moved[p - 1] == s[j];
    assert Drop(was, i) == Drop(now, p);
    assert BesideAt(was, now, key(s[i]), anchor, i, p);
  }

  lemma RenumberedOrder(s: seq<Activity>)
    ensures StableSort(Renumbered(s), ActivityLeq) == Renumbered(s)
    ensures Keys(StableSort(Renumbered(s), ActivityLeq), ActivityKey) == Keys(s, ActivityKey)
  {
    RenumberedIsInOrder(s);
    InOrderIsSorted(Renumbered(s));
    hide StableSort, RenumberSteps;
    assert forall k :: 0 <= k < |s| ==> Renumbered(s)[k].key == s[k].key;
  }

  /** Moving an activity puts it beside its anchor and keeps the order of all the others. */
  lemma MoveActivityPutsBeside(d: Document, key: string, anchor: Anchor, loaded: Loaded)
    ensures var r := ApplyChange(d, MoveActivity(key, anchor), loaded);
            r.Some? ==> PutBeside(Keys(Ordered(d), ActivityKey), Keys(Ordered(r.value), ActivityKey), key, anchor)
  {
    var s := Ordered(d);
    var at, beside := FindActivity(s, key), FindActivity(s, anchor.key);
    if at.Some? && beside.Some? && anchor.key != key {
      MovedIsBeside(s, ActivityKey, at.value, beside.value, anchor);
      RenumberedOrder(Moved(s, at.value, Target(at.value, beside.value, anchor.After?)));
      hide PutBeside, Renumbered, StableSort, Keys;
    }
  }

  /** The anchor that takes the element at `i` back to `i`. */
  function WayBack(s: seq<Activity>, i: nat): Anchor
    requires i < |s| && |s| > 1
  {
    if i > 0 then After(s[i - 1].key) else Before(s[1].key)
  }

  lemma RenumberedMoved(s: seq<Activity>, i: nat, to: nat)
    requires i < |s| && to < |s|
    ensures Renumbered(Moved(Renumbered(s), i, to)) == Renumbered(Moved(s, i, to))
  {
    var a, b := Moved(Renumbered(s), i, to), Moved(s, i, to);
    forall k | 0 <= k < |s|
      ensures Renumbered(a)[k] == Renumbered(b)[k]
    {
      assert exists m :: 0 <= m < |s| && a[k] == Renumbered(s)[m] && b[k] == s[m] by {
        var d, e := Drop(Renumbered(s), i), Drop(s, i);
        if k != to {
          var q := if k < to then k else k - 1;
          assert a[k] == d[q] && b[k] == e[q];
          var m := if q < i then q else q + 1;
          assert d[q] == Renumbered(s)[m] && e[q] == s[m];
        }
      }
      var m :| 0 <= m < |s| && a[k] == Renumbered(s)[m] && b[k] == s[m];
      RenumberedStepsAreInOrder(s[m].steps);
      StepsInOrderAreSorted(RenumberSteps(s[m].steps));
    }
  }

  /** Among the others, the element at `i` was right after, or right before, its way-back anchor. */
  lemma MovedBack(s: seq<Activity>, i: nat, to: nat)
    requires Pairwise(s, ActivitiesDiffer) && i < |s| && to < |s| && |s| > 1
    ensures var m := Moved(s, i, to);
            var back := WayBack(s, i);
            && FindActivity(m, s[i].key) == Some(to)
            && FindActivity(m, back.key).Some?
            && back.key != s[i].key
            && Target(to, FindActivity(m, back.key).value, back.After?) == i
            && Moved(m, to, i) == s
  {
    var m, back := Moved(s, i, to), WayBack(s, i);
    MovedPairwise(s, i, to, ActivitiesDiffer);
    var n, q := if i > 0 then i - 1 else 1, if i > 0 then i - 1 else 0;
    var p := if q < to then q else q + 1;
    MovedAt(s, i, to, n, q);
    assert ActivitiesDiffer(s[if i < n then i else n], s[if i < n then n else i]);
    hide Moved, Drop;
    FoundActivity(m, p);
    FoundActivity(m, to);
  }

  /** Where a moved element and another land, and that moving it again puts everything back. */
  lemma MovedAt<T(!new)>(s: seq<T>, i: nat, to: nat, n: nat, q: nat)
    requires i < |s| && to < |s| && n < |s| && n != i && q == if n < i then n else n - 1
    ensures var m := Moved(s, i, to);
            |m| == |s| && m[to] == s[i] && m[if q < to then q else q + 1] == s[n] && Moved(m, to, i) == s
  {
    var m := Moved(s, i, to);
    var d := Drop(s, i);
    assert d[q] == s[n];
    assert Drop(m, to) == d;
    assert d[..i] == s[..i] && d[i..] == s[i + 1..];
  }

  lemma FoundRenumbered(s: seq<Activity>, key: string)
    ensures FindActivity(Renumbered(s), key) == FindActivity(s, key)
  {
    assert forall i :: 0 <= i < |s| ==> Renumbered(s)[i].key == s[i].key;
  }

  lemma AcceptedMove(d: Document, key: string, anchor: Anchor, loaded: Loaded)
    requires StableSort(d.activities, ActivityLeq) == d.activities
    ensures var s := d.activities;
            var at, beside := FindActivity(s, key), FindActivity(s, anchor.key);
            var r := ApplyChange(d, MoveActivity(key, anchor), loaded);
            && (r.Some? <==> at.Some? && beside.Some? && anchor.key != key)
            && (r.Some? ==> r == Some(d.(activities :=
                  Renumbered(Moved(s, at.value, Target(at.value, beside.value, anchor.After?))))))
  {
    hide StableSort, Renumbered, Moved;
  }

  /** Every accepted move of an activity is undone by a second one. */
  lemma MoveActivityIsUndone(d: Document, key: string, anchor: Anchor, loaded: Loaded)
    requires UniqueActivities(d.activities) && InOrder(d.activities)
    requires ApplyChange(d, MoveActivity(key, anchor), loaded).Some?
    ensures exists back :: ApplyChange(ApplyChange(d, MoveActivity(key, anchor), loaded).value,
                                       MoveActivity(key, back), loaded) == Some(d)
  {
    var s := d.activities;
    InOrderIsSorted(s);
    AcceptedMove(d, key, anchor, loaded);
    var i, j := FindActivity(s, key).value, FindActivity(s, anchor.key).value;
    var to := Target(i, j, anchor.After?);
    var moved := Moved(s, i, to);
    var once := d.(activities := Renumbered(moved));
    MovedBack(s, i, to);
    RenumberedOrder(moved);
    RenumberedMoved(moved, to, i);
    var back := WayBack(s, i);
    FoundRenumbered(moved, key);
    FoundRenumbered(moved, back.key);
    AcceptedMove(once, key, back, loaded);
    hide ApplyChange, StableSort, Renumbered, Moved, FindActivity;
    assert ApplyChange(once, MoveActivity(key, back), loaded) == Some(d);
  }

  lemma MoveOfRenumbered(d: Document, key: string, anchor: Anchor, loaded: Loaded)
    ensures var tidy := d.(activities := Renumbered(Ordered(d)));
            ApplyChange(d, MoveActivity(key, anchor), loaded) == ApplyChange(tidy, MoveActivity(key, anchor), loaded)
  {
    var s := Ordered(d);
    var tidy := d.(activities := Renumbered(s));
    RenumberedIsInOrder(s);
    InOrderIsSorted(Renumbered(s));
    FoundRenumbered(s, key);
    FoundRenumbered(s, anchor.key);
    var at, beside := FindActivity(s, key), FindActivity(s, anchor.key);
    if at.Some? && beside.Some? && anchor.key != key {
      RenumberedMoved(s, at.value, Target(at.value, beside.value, anchor.After?));
    }
    hide StableSort, Renumbered, Moved, FindActivity;
  }

  /** On any document with distinct keys, the second move leaves what renumbering alone would have. */
  lemma MoveIsUndoneAnywhere(d: Document, key: string, anchor: Anchor, loaded: Loaded)
    requires UniqueActivities(d.activities)
    requires ApplyChange(d, MoveActivity(key, anchor), loaded).Some?
    ensures exists back :: ApplyChange(ApplyChange(d, MoveActivity(key, anchor), loaded).value,
                                       MoveActivity(key, back), loaded)
                           == Some(d.(activities := Renumbered(Ordered(d))))
  {
    var tidy := d.(activities := Renumbered(Ordered(d)));
    SortedActivitiesStayUnique(d.activities);
    RenumberedIsInOrder(Ordered(d));
    MoveOfRenumbered(d, key, anchor, loaded);
    hide ApplyChange, Renumbered, Ordered;
    MoveActivityIsUndone(tidy, key, anchor, loaded);
  }

  // ---------------------------------------------------------------- moving a step

  lemma KeysDetermine<T(!new)>(a: seq<T>, b: seq<T>, key: T -> string)
    requires multiset(a) == multiset(b) && Keys(a, key) == Keys(b, key)
    requires forall i, j :: 0 <= i < j < |a| ==> key(a[i]) != key(a[j])
    ensures a == b
  {
    assert |a| == |Keys(a, key)| == |Keys(b, key)| == |b|;
    MembersOf(a, b);
    forall i | 0 <= i < |a|
      ensures a[i] == b[i]
    {
      assert Keys(a, key)[i] == Keys(b, key)[i];
      assert b[i] in b && b[i] in a;
      var j :| 0 <= j < |a| && a[j] == b[i];
      assert i == j;
    }
  }

  /** The steps a moving step passes over on its way to its new place. */
  predicate Passes(i: nat, to: nat, k: nat) {
    to <= k < i || i < k <= to
  }

  lemma MovedStaysSorted(s: seq<Step>, i: nat, to: nat)
    requires i < |s| && to < |s| && Pairwise(s, StepLeq)
    ensures Pairwise(Moved(s, i, to), StepLeq) <==>
              forall k :: 0 <= k < |s| && Passes(i, to, k) ==> s[k].order == s[i].order
  {
    var m, d := Moved(s, i, to), Drop(s, i);
    DroppedPairwise(s, i, StepLeq);
    if Pairwise(m, StepLeq) {
      forall k | 0 <= k < |s| && Passes(i, to, k)
        ensures s[k].order == s[i].order
      {
        if k < i {
          assert d[k] == s[k] && m[k + 1] == d[k] && m[to] == s[i];
          assert StepLeq(m[to], m[k + 1]) && StepLeq(s[k], s[i]);
        } else {
          assert d[k - 1] == s[k] && m[k - 1] == d[k - 1] && m[to] == s[i];
          assert StepLeq(m[k - 1], m[to]) && StepLeq(s[i], s[k]);
        }
      }
    }
    if forall k :: 0 <= k < |s| && Passes(i, to, k) ==> s[k].order == s[i].order {
      forall q | 0 <= q < |d|
        ensures q < to ==> StepLeq(d[q], s[i])
        ensures q >= to ==> StepLeq(s[i], d[q])
      {
        var k := if q < i then q else q + 1;
        assert d[q] == s[k];
        assert k < i ==> StepLeq(s[k], s[i]);
        assert k > i ==> StepLeq(s[i], s[k]);
      }
      assert Pairwise(m, StepLeq);
    }
  }

  lemma StepLeqIsTotal()
    ensures TotalPreorder(StepLeq)
  {
  }

  /** Sorting by a position nothing rewrote: what survives of a reordering. */
  lemma ReorderSurvives(steps: seq<Step>, i: nat, to: nat)
    requires UniqueSteps(steps) && i < |steps| && to < |steps|
    ensures |StableSort(steps, StepLeq)| == |steps|
    ensures var s := StableSort(steps, StepLeq); var m := Moved(s, i, to);
            Keys(RenumberSteps(m), StepKey) == Keys(m, StepKey) <==>
              forall k :: 0 <= k < |s| && Passes(i, to, k) ==> s[k].order == s[i].order
  {
    var s := StableSort(steps, StepLeq);
    SortElements(steps, StepLeq);
    SortedStepsStayUnique(steps);
    StepLeqIsTotal();
    var always := (a: Step, b: Step) => true;
    SortSorts(steps, StepLeq, always);
    var m := Moved(s, i, to);
    MovedPairwise(s, i, to, StepsDiffer);
    MovedStaysSorted(s, i, to);
    SortElements(m, StepLeq);
    var sorted := StableSort(m, StepLeq);
    assert forall k :: 0 <= k < |m| ==> RenumberSteps(m)[k].key == sorted[k].key;
    assert Keys(RenumberSteps(m), StepKey) == Keys(sorted, StepKey);
    if Pairwise(m, StepLeq) {
      SortOfSorted(m, StepLeq);
    }
    if Keys(sorted, StepKey) == Keys(m, StepKey) {
      assert forall x, y :: 0 <= x < y < |m| ==> StepsDiffer(m[x], m[y]);
      KeysDetermine(m, sorted, StepKey);
      SortSorts(m, StepLeq, always);
      assert Pairwise(m, StepLeq);
    }
  }

  /**
   `move_step` reorders the list and `renumber` sorts it again by positions the move never
   touched. The step ends beside its anchor, with the others as they were, exactly when every
   step it passes over already shared its position.
   */
  lemma MoveStepWorksExactlyWhen(a: Activity, key: string, anchor: Anchor, loaded: Loaded)
    requires UniqueSteps(a.steps)
    requires RewriteSteps(a, MoveStep(a.key, key, anchor), loaded).Some?
    ensures var s := StableSort(a.steps, StepLeq);
            var at, beside := FindStep(s, key), FindStep(s, anchor.key);
            && at.Some? && beside.Some? && at != beside
            && var to := Target(at.value, beside.value, anchor.After?);
            var moved := RewriteSteps(a, MoveStep(a.key, key, anchor), loaded).value;
            && PutBeside(Keys(s, StepKey), Keys(moved, StepKey), key, anchor)
            && (Keys(RenumberSteps(moved), StepKey) == Keys(moved, StepKey) <==>
                  forall k :: 0 <= k < |s| && Passes(at.value, to, k) ==> s[k].order == s[at.value].order)
  {
    var s := StableSort(a.steps, StepLeq);
    var at, beside := FindStep(s, key), FindStep(s, anchor.key);
    SortElements(a.steps, StepLeq);
    ReorderSurvives(a.steps, at.value, Target(at.value, beside.value, anchor.After?));
    MovedIsBeside(s, StepKey, at.value, beside.value, anchor);
  }

  predicate Apart(a: Step, b: Step) {
    a.order != b.order
  }

  /** Sorting steps whose positions differ leaves them in strict order. */
  lemma SortedStrictly(m: seq<Step>)
    requires Pairwise(m, Apart)
    ensures var sorted := StableSort(m, StepLeq);
            multiset(sorted) == multiset(m) && Pairwise(sorted, StepLeq) && Strict(sorted, StepLeq)
  {
    SortElements(m, StepLeq);
    SortKeepsPairwise(m, StepLeq, Apart);
    StepLeqIsTotal();
    SortSorts(m, StepLeq, Apart);
    var sorted := StableSort(m, StepLeq);
    hide StableSort;
    forall x, y | 0 <= x < y < |sorted|
      ensures StepLeq(sorted[x], sorted[y]) && !StepLeq(sorted[y], sorted[x])
    {
      assert Apart(sorted[x], sorted[y]);
    }
  }

  lemma RenumberOnceSorted(m: seq<Step>, s: seq<Step>)
    requires StableSort(m, StepLeq) == s && StepsInOrder(s)
    ensures RenumberSteps(m) == s
  {
    SortElements(m, StepLeq);
    hide StableSort;
  }

  /** Distinct positions put a reordered list back where it was. */
  lemma SortedBack(s: seq<Step>, i: nat, to: nat)
    requires StepsInOrder(s) && i < |s| && to < |s|
    ensures RenumberSteps(Moved(s, i, to)) == s
  {
    var m := Moved(s, i, to);
    assert Pairwise(s, Apart) && Pairwise(s, StepLeq) && Strict(s, StepLeq);
    MovedElements(s, i, to);
    MovedPairwise(s, i, to, Apart);
    hide *;
    SortedStrictly(m);
    StrictOrderIsUnique(StableSort(m, StepLeq), s, StepLeq);
    RenumberOnceSorted(m, s);
  }

  lemma MovedStepSortsBack(a: Activity, key: string, anchor: Anchor, loaded: Loaded)
    requires StepsInOrder(a.steps)
    ensures var m := RewriteSteps(a, MoveStep(a.key, key, anchor), loaded);
            m.Some? ==> RenumberSteps(m.value) == a.steps
  {
    var s := a.steps;
    StepsInOrderAreSorted(s);
    var at, beside := FindStep(s, key), FindStep(s, anchor.key);
    if at.Some? && beside.Some? && at != beside {
      SortedBack(s, at.value, Target(at.value, beside.value, anchor.After?));
      hide RenumberSteps;
    }
  }

  lemma RenumberedReplaced(s: seq<Activity>, at: nat, steps: seq<Step>)
    requires InOrder(s) && at < |s| && RenumberSteps(steps) == s[at].steps
    ensures Renumbered(s[at := s[at].(steps := steps)]) == s
  {
    InOrderIsSorted(s);
    var changed := s[at := s[at].(steps := steps)];
    forall k | 0 <= k < |s|
      ensures Renumbered(changed)[k] == s[k]
    {
      assert Renumbered(s)[k] == s[k];
    }
  }

  /** So on a document in order, which every edited one is, an accepted step move changes nothing. */
  lemma MoveStepChangesNothing(d: Document, activity: string, key: string, anchor: Anchor, loaded: Loaded)
    requires InOrder(d.activities)
    ensures ApplyChange(d, MoveStep(activity, key, anchor), loaded) in {None, Some(d)}
  {
    var s := d.activities;
    var c := MoveStep(activity, key, anchor);
    InOrderIsSorted(s);
    var at := FindActivity(s, activity);
    if at.Some? {
      MovedStepSortsBack(s[at.value], key, anchor, loaded);
      var steps := RewriteSteps(s[at.value], c, loaded);
      if steps.Some? {
        RenumberedReplaced(s, at.value, steps.value);
      }
      hide StableSort, RenumberSteps, Renumbered, RewriteSteps;
    }
  }

  // ---------------------------------------------------------------- a source-only proposal

  lemma ActivityLeqIsTotal()
    ensures TotalPreorder(ActivityLeq)
  {
  }

  lemma {:induction false} SourceChangesKeepActivities(d: Document, changes: seq<Change>, loaded: Loaded)
    requires forall c :: c in changes ==> SourceChange(c)
    ensures var r := ApplyEach(d, changes, loaded); r.Some? ==> r.value.activities == d.activities
    decreases |changes|
  {
    if changes != [] {
      assert changes[0] in changes;
      var first := ApplyChange(d, changes[0], loaded);
      if first.Some? {
        SourceChangesKeepActivities(first.value, changes[1..], loaded);
      }
    }
  }

  lemma StoredInOrder(s: seq<Activity>)
    requires UniqueActivities(s)
    ensures Keys(s, ActivityKey) == Keys(StableSort(s, ActivityLeq), ActivityKey) <==> Pairwise(s, ActivityLeq)
  {
    if Pairwise(s, ActivityLeq) {
      SortOfSorted(s, ActivityLeq);
    }
    if Keys(s, ActivityKey) == Keys(StableSort(s, ActivityLeq), ActivityKey) {
      SortElements(s, ActivityLeq);
      assert forall x, y :: 0 <= x < y < |s| ==> ActivitiesDiffer(s[x], s[y]);
      KeysDetermine(s, StableSort(s, ActivityLeq), ActivityKey);
      ActivityLeqIsTotal();
      var always := (a: Activity, b: Activity) => true;
      SortSorts(s, ActivityLeq, always);
    }
  }

  /**
   A proposal that only changes sources numbers activities by where they are stored. It keeps
   the order they are worked in exactly when they were stored in that order to begin with.
   */
  lemma SourceOnlyKeepsSequenceExactlyWhen(d: Document, changes: seq<Change>, loaded: Loaded)
    requires UniqueActivities(d.activities) && forall c :: c in changes ==> SourceChange(c)
    requires ApplyChanges(d, changes, loaded).Some?
    ensures var r := ApplyChanges(d, changes, loaded).value;
            Keys(Ordered(r), ActivityKey) == Keys(Ordered(d), ActivityKey) <==>
              forall i, j :: 0 <= i < j < |d.activities| ==> ActivityLeq(d.activities[i], d.activities[j])
  {
    SourceChangesKeepActivities(d, changes, loaded);
    RenumberedOrder(d.activities);
    StoredInOrder(d.activities);
    hide StableSort, Renumbered, ApplyEach;
  }
}
