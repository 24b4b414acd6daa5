/** How rows are ordered on a screen: one stable pass a rule, the last rule first. */
module Presentation {
  import opened Common
  import opened Sorting
  import opened Text

  datatype Column = Received | Confidence | Subject | State

  datatype SortRule = SortRule(source: Column, descending: bool)

  datatype Row = Row(id: string, receivedAt: Option<int>, confidence: real, subject: Option<string>, state: string)

  datatype Value = Number(number: real) | Words(text: string)

  datatype Key = Key(rank: int, value: Value)

  // ---------------------------------------------------------------- keys

  function Rank(present: bool, descending: bool): int {
    if present == descending then 1 else 0
  }

  predicate Missing(source: Column, row: Row) {
    match source
    case Received => row.receivedAt.None?
    case Subject => row.subject.None? || row.subject.value == ""
    case _ => false
  }

  /** Rows with nothing to sort on are ranked to the end in whichever direction. */
  function SortKey(fold: char -> string, rule: SortRule, row: Row): Key {
    var rank := Rank(!Missing(rule.source, row), rule.descending);
    match rule.source
    case Received => Key(rank, Number(if row.receivedAt.None? then 0.0 else row.receivedAt.value as real))
    case Confidence => Key(rank, Number(row.confidence))
    case Subject => Key(rank, Words(if Missing(Subject, row) then "" else CaseFold(fold, row.subject.value)))
    case State => Key(rank, Words(row.state))
  }

  predicate ValueLeq(a: Value, b: Value) {
    match (a, b)
    case (Number(x), Number(y)) => x <= y
    case (Words(x), Words(y)) => TextLeq(x, y)
    case (Number(_), Words(_)) => true
    case (Words(_), Number(_)) => false
  }

  predicate KeyLeq(a: Key, b: Key) {
    a.rank < b.rank || (a.rank == b.rank && ValueLeq(a.value, b.value))
  }

  /** Whether a rule lets `a` stand before `b`; a descending sort compares the other way round. */
  predicate Allows(fold: char -> string, rule: SortRule, a: Row, b: Row) {
    var x, y := SortKey(fold, rule, a), SortKey(fold, rule, b);
    if rule.descending then KeyLeq(y, x) else KeyLeq(x, y)
  }

  function By(fold: char -> string, rule: SortRule): (Row, Row) -> bool {
    (a: Row, b: Row) => Allows(fold, rule, a, b)
  }

  // ---------------------------------------------------------------- the passes

  function Sorted(fold: char -> string, rules: seq<SortRule>, rows: seq<Row>): seq<Row> {
    if rules == [] then rows else StableSort(Sorted(fold, rules[1..], rows), By(fold, rules[0]))
  }

  method SortItems(fold: char -> string, rules: seq<SortRule>, rows: seq<Row>) returns (ordered: seq<Row>)
    ensures ordered == Sorted(fold, rules, rows)
  {
    ordered := rows;
    var n := |rules|;
    while n > 0
      invariant 0 <= n <= |rules| && ordered == Sorted(fold, rules[n..], rows)
    {
      n := n - 1;
      assert rules[n..][1..] == rules[n + 1..];
      ordered := StableSort(ordered, By(fold, rules[n]));
    }
    assert rules[0..] == rules;
  }

  // ---------------------------------------------------------------- what the order is

  ghost predicate CameBefore(rows: seq<Row>, a: Row, b: Row) {
    exists i, j :: 0 <= i < j < |rows| && rows[i] == a && rows[j] == b
  }

  /** By the first rule that tells the two apart, and by the order they came in where none does. */
  ghost predicate InOrder(fold: char -> string, rules: seq<SortRule>, rows: seq<Row>, a: Row, b: Row) {
    if rules == [] then CameBefore(rows, a, b)
    else Allows(fold, rules[0], a, b) && (Allows(fold, rules[0], b, a) ==> InOrder(fold, rules[1..], rows, a, b))
  }

  ghost function Ordering(fold: char -> string, rules: seq<SortRule>, rows: seq<Row>): (Row, Row) -> bool {
    (a: Row, b: Row) => InOrder(fold, rules, rows, a, b)
  }

  lemma KeysAreOrdered(a: Key, b: Key, c: Key)
    ensures KeyLeq(a, b) || KeyLeq(b, a)
    ensures KeyLeq(a, b) && KeyLeq(b, c) ==> KeyLeq(a, c)
  {
    if a.value.Words? && b.value.Words? {
      TextLeqTotal(a.value.text, b.value.text);
      if c.value.Words? && TextLeq(a.value.text, b.value.text) && TextLeq(b.value.text, c.value.text) {
        TextLeqTransitive(a.value.text, b.value.text, c.value.text);
      }
    }
  }

  lemma RuleOrders(fold: char -> string, rule: SortRule)
    ensures TotalPreorder(By(fold, rule))
  {
    forall a, b, c
      ensures Allows(fold, rule, a, b) || Allows(fold, rule, b, a)
      ensures Allows(fold, rule, a, b) && Allows(fold, rule, b, c) ==> Allows(fold, rule, a, c)
    {
      var x, y, z := SortKey(fold, rule, a), SortKey(fold, rule, b), SortKey(fold, rule, c);
      KeysAreOrdered(x, y, z);
      KeysAreOrdered(z, y, x);
      hide SortKey, KeyLeq;
    }
  }

  lemma {:induction false} SortedElements(fold: char -> string, rules: seq<SortRule>, rows: seq<Row>)
    ensures multiset(Sorted(fold, rules, rows)) == multiset(rows)
  {
    if rules != [] {
      SortedElements(fold, rules[1..], rows);
      SortElements(Sorted(fold, rules[1..], rows), By(fold, rules[0]));
    }
  }

  /**
   The passes, last rule first, leave the rows ordered by the rule list, the first rule most
   significant, and rows no rule tells apart in the order they came.
   */
  lemma {:induction false} SortedByAllRules(fold: char -> string, rules: seq<SortRule>, rows: seq<Row>)
    ensures Pairwise(Sorted(fold, rules, rows), Ordering(fold, rules, rows))
  {
    if rules != [] {
      var later := Sorted(fold, rules[1..], rows);
      SortedByAllRules(fold, rules[1..], rows);
      RuleOrders(fold, rules[0]);
      SortSorts(later, By(fold, rules[0]), Ordering(fold, rules[1..], rows));
      hide StableSort, Allows, Sorted;
      assert Sorted(fold, rules, rows) == StableSort(later, By(fold, rules[0])) by {
        SortedUnfolds(fold, rules, rows);
      }
    }
  }

  lemma SortedUnfolds(fold: char -> string, rules: seq<SortRule>, rows: seq<Row>)
    requires rules != []
    ensures Sorted(fold, rules, rows) == StableSort(Sorted(fold, rules[1..], rows), By(fold, rules[0]))
  {
  }

  lemma {:induction false} OneWayRound(fold: char -> string, rules: seq<SortRule>, rows: seq<Row>, a: Row, b: Row)
    requires InOrder(fold, rules, rows, a, b) && Distinct(rows)
    ensures !InOrder(fold, rules, rows, b, a)
  {
    if rules != [] && InOrder(fold, rules[1..], rows, a, b) {
      OneWayRound(fold, rules[1..], rows, a, b);
    }
  }

  /** And theirs is the only arrangement of the rows that is in that order. */
  lemma OnlyOneOrder(fold: char -> string, rules: seq<SortRule>, rows: seq<Row>, other: seq<Row>)
    requires Distinct(rows) && multiset(other) == multiset(rows)
    requires Pairwise(other, Ordering(fold, rules, rows))
    ensures other == Sorted(fold, rules, rows)
  {
    var ordered, ordering := Sorted(fold, rules, rows), Ordering(fold, rules, rows);
    SortedByAllRules(fold, rules, rows);
    SortedElements(fold, rules, rows);
    hide Sorted;
    forall s | s == ordered || s == other
      ensures Strict(s, ordering)
    {
      forall i, j | 0 <= i < j < |s|
        ensures !ordering(s[j], s[i])
      {
        assert ordering(s[i], s[j]);
        OneWayRound(fold, rules, rows, s[i], s[j]);
      }
    }
    StrictOrderIsUnique(ordered, other, ordering);
  }

  /** A row with nothing to sort on comes after every row with something, whichever the direction. */
  lemma MissingComesLast(fold: char -> string, rules: seq<SortRule>, rows: seq<Row>, i: nat, j: nat)
    requires rules != [] && i < j < |Sorted(fold, rules, rows)|
    ensures var ordered := Sorted(fold, rules, rows);
            Missing(rules[0].source, ordered[i]) ==> Missing(rules[0].source, ordered[j])
  {
    SortedByAllRules(fold, rules, rows);
    hide Sorted, CaseFold;
    var ordered := Sorted(fold, rules, rows);
    assert Ordering(fold, rules, rows)(ordered[i], ordered[j]);
  }

  // ---------------------------------------------------------------- what a rule compares

  predicate Absent(source: Column, row: Row) {
    (source.Received? && row.receivedAt.None?)
    || (source.Subject? && (row.subject.None? || row.subject.value == ""))
  }

  /** One row's entry in this column comes no later than the other's, both being there. */
  predicate NoLater(fold: char -> string, source: Column, a: Row, b: Row)
    requires !Absent(source, a) && !Absent(source, b)
  {
    match source
    case Received => a.receivedAt.value <= b.receivedAt.value
    case Confidence => a.confidence <= b.confidence
    case Subject => TextLeq(CaseFold(fold, a.subject.value), CaseFold(fold, b.subject.value))
    case State => TextLeq(a.state, b.state)
  }

  /**
   A rule lets one row stand before another by what its column says of them, the other way round
   when it descends; a row with nothing there stands after every row with something, either way.
   */
  lemma AllowsExactlyWhen(fold: char -> string, rule: SortRule, a: Row, b: Row)
    ensures Allows(fold, rule, a, b) <==>
              if Absent(rule.source, a) || Absent(rule.source, b) then Absent(rule.source, b)
              else if rule.descending then NoLater(fold, rule.source, b, a)
              else NoLater(fold, rule.source, a, b)
  {
    TextLeqTotal("", "");
    hide CaseFold;
  }
}
