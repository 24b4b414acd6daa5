/** Holding a submitted email review to the playbook its review pinned. */
module Submissions {
  import opened Common
  import opened ReviewPlaybook
  import opened Sorting
  import opened Text

  datatype Value = Words(text: string) | Said

  /** The identity is always there; everything else is stated or it is not. */
  datatype Item = Item(sourceThreadId: string, groupKey: string, said: map<ItemField, Value>)
  {
    function FieldValue(f: ItemField): Option<Value> {
      if f == SourceThreadId then Some(Words(sourceThreadId))
      else if f == GroupKey then Some(Words(groupKey))
      else if f in said then Some(said[f])
      else None
    }
  }

  datatype Submission = Submission(
    playbookVersionId: string, source: Source, threadCount: nat, items: seq<Item>, recommendedOrder: seq<string>)
  {
    function ThreadIds(): (ids: seq<string>)
      ensures |ids| == |items| && forall i :: 0 <= i < |ids| ==> ids[i] == items[i].sourceThreadId
    {
      seq(|items|, i requires 0 <= i < |items| => items[i].sourceThreadId)
    }
  }

  datatype ReviewStatus = InProgress | PartiallyComplete | Completed | Superseded

  datatype PhaseStatus = Ready | Recorded | Done | Unavailable

  /** What the checks read of the review: its state, its pinned version and its phase. */
  datatype Standing = Standing(status: ReviewStatus, current: Option<string>, revisionId: string, phase: PhaseStatus)

  datatype Refusal =
    | ReviewNotActive | WrongPhase | StalePlaybookVersion | WrongScope | NoCatchAllGroup
    | UnknownGroup(index: nat) | MissingField(index: nat, field: ItemField)
    | DuplicateThread(index: nat) | CountMismatch
    | OrderUnknownItem(index: nat) | OrderDuplicate(index: nat) | OrderIncomplete

  /** An empty string is a field left blank; every other value is an answer. */
  predicate Stated(v: Option<Value>) {
    v.Some? && (v.value.Words? ==> Strip(v.value.text) != "")
  }

  /** A field is stated exactly when it is there and is not just space. */
  lemma StatedExactlyWhen(item: Item, f: ItemField)
    ensures Stated(item.FieldValue(f)) <==>
              match f {
                case SourceThreadId => !AllSpace(item.sourceThreadId)
                case GroupKey => !AllSpace(item.groupKey)
                case _ => f in item.said && (item.said[f].Words? ==> !AllSpace(item.said[f].text))
              }
  {
    StripsToNothingExactlyWhen(item.sourceThreadId);
    StripsToNothingExactlyWhen(item.groupKey);
    if f in item.said && item.said[f].Words? {
      StripsToNothingExactlyWhen(item.said[f].text);
    }
    hide Strip, AllSpace;
  }

  // ---------------------------------------------------------------- what may be recorded

  /** Each item in a group the playbook has, saying all that the playbook requires. */
  ghost predicate ItemsHold(c: PhaseConfig, items: seq<Item>) {
    forall i :: 0 <= i < |items| ==>
      c.HasGroup(items[i].groupKey) && forall f | c.Requires(f) :: Stated(items[i].FieldValue(f))
  }

  /** The order is a rearrangement of the threads. */
  ghost predicate OrderHolds(c: PhaseConfig, s: Submission) {
    c.orderRequired ==> multiset(s.recommendedOrder) == multiset(s.ThreadIds())
  }

  ghost predicate Acceptable(r: Standing, c: PhaseConfig, s: Submission) {
    && r.status.InProgress? && r.phase != Done && r.current == Some(EMAIL_REVIEW)
    && s.playbookVersionId == r.revisionId
    && (c.source.Some? ==> s.source == c.source.value)
    && (c.catchAllRequired ==> c.HasCatchAll())
    && ItemsHold(c, s.items)
    && Distinct(s.ThreadIds()) && s.threadCount == |s.items|
    && OrderHolds(c, s)
  }

  /** The review is not there to record against, or the submission is not for it. */
  predicate IsReviewFault(r: Standing, c: PhaseConfig, s: Submission, f: Refusal) {
    || (f == ReviewNotActive && !r.status.InProgress?)
    || (f == WrongPhase && (r.phase == Done || r.current != Some(EMAIL_REVIEW)))
    || (f == StalePlaybookVersion && s.playbookVersionId != r.revisionId)
    || (f == WrongScope && c.source.Some? && s.source != c.source.value)
    || (f == NoCatchAllGroup && c.catchAllRequired && !c.HasCatchAll())
  }

  /** Each way a submission can be wrong, and where. */
  ghost predicate IsFault(r: Standing, c: PhaseConfig, s: Submission, f: Refusal) {
    var ids, order := s.ThreadIds(), s.recommendedOrder;
    match f
    case UnknownGroup(i) => i < |s.items| && !c.HasGroup(s.items[i].groupKey)
    case MissingField(i, field) => i < |s.items| && c.Requires(field) && !Stated(s.items[i].FieldValue(field))
    case DuplicateThread(i) => i < |ids| && ids[i] in ids[..i]
    case CountMismatch => s.threadCount != |Elements(ids)|
    case OrderUnknownItem(i) => c.orderRequired && i < |order| && order[i] !in ids
    case OrderDuplicate(i) => c.orderRequired && i < |order| && order[i] in order[..i]
    case OrderIncomplete => c.orderRequired && exists t :: t in ids && t !in order
    case _ => IsReviewFault(r, c, s, f)
  }

  // ---------------------------------------------------------------- the checks

  function RequiredFields(c: PhaseConfig): (fields: seq<ItemField>)
    ensures forall f :: f in fields <==> c.Requires(f)
  {
    Once([SourceThreadId, GroupKey] + c.requiredItemFields)
  }

  method CheckItems(c: PhaseConfig, items: seq<Item>) returns (failures: seq<Refusal>)
    ensures failures == [] <==> ItemsHold(c, items)
    ensures forall i: nat :: UnknownGroup(i) in failures <==> i < |items| && !c.HasGroup(items[i].groupKey)
    ensures forall i: nat, f :: MissingField(i, f) in failures <==>
                             i < |items| && c.Requires(f) && !Stated(items[i].FieldValue(f))
    ensures forall e :: e in failures ==> e.UnknownGroup? || e.MissingField?
  {
    failures := [];
    var required := RequiredFields(c);
    for n := 0 to |items|
      invariant forall i: nat :: UnknownGroup(i) in failures <==> i < n && !c.HasGroup(items[i].groupKey)
      invariant forall i: nat, f :: MissingField(i, f) in failures <==>
                                 i < n && c.Requires(f) && !Stated(items[i].FieldValue(f))
      invariant forall e :: e in failures ==> e.UnknownGroup? || e.MissingField?
    {
      if !c.HasGroup(items[n].groupKey) {
        failures := failures + [UnknownGroup(n)];
      }
      for k := 0 to |required|
        invariant forall i: nat :: UnknownGroup(i) in failures <==> i <= n && !c.HasGroup(items[i].groupKey)
        invariant forall i: nat, f :: MissingField(i, f) in failures <==>
                                   || (i < n && c.Requires(f) && !Stated(items[i].FieldValue(f)))
                                   || (i == n && f in required[..k] && !Stated(items[n].FieldValue(f)))
        invariant forall e :: e in failures ==> e.UnknownGroup? || e.MissingField?
      {
        assert required[..k + 1] == required[..k] + [required[k]];
        if !Stated(items[n].FieldValue(required[k])) {
          failures := failures + [MissingField(n, required[k])];
        }
      }
      assert required[..|required|] == required;
    }
    NothingFailed(c, items, failures);
  }

  lemma NothingFailed(c: PhaseConfig, items: seq<Item>, failures: seq<Refusal>)
    requires forall i: nat :: UnknownGroup(i) in failures <==> i < |items| && !c.HasGroup(items[i].groupKey)
    requires forall i: nat, f :: MissingField(i, f) in failures <==>
                              i < |items| && c.Requires(f) && !Stated(items[i].FieldValue(f))
    requires forall e :: e in failures ==> e.UnknownGroup? || e.MissingField?
    ensures failures == [] <==> ItemsHold(c, items)
  {
    if failures == [] {
      forall i, f | 0 <= i < |items| && c.Requires(f)
        ensures c.HasGroup(items[i].groupKey) && Stated(items[i].FieldValue(f))
      {
        assert MissingField(i, f) !in failures && UnknownGroup(i) !in failures;
      }
      forall i | 0 <= i < |items|
        ensures c.HasGroup(items[i].groupKey)
      {
        assert UnknownGroup(i) !in failures;
      }
    } else {
      assert failures[0] in failures;
    }
  }

  /** The failures are the positions, so far, of a thread seen before. */
  ghost predicate RepeatsFound(failures: seq<Refusal>, ids: seq<string>, n: nat)
    requires n <= |ids|
  {
    && (forall i: nat :: DuplicateThread(i) in failures <==> i < n && ids[i] in ids[..i])
    && (forall e :: e in failures ==> e.DuplicateThread?)
  }

  method FindRepeats(ids: seq<string>) returns (failures: seq<Refusal>, seen: set<string>)
    ensures RepeatsFound(failures, ids, |ids|) && seen == Elements(ids)
  {
    failures, seen := [], {};
    for n := 0 to |ids|
      invariant seen == Elements(ids[..n]) && RepeatsFound(failures, ids, n)
    {
      hide RepeatsFound;
      RepeatsStep(failures, ids, n);
      if ids[n] in seen {
        failures := failures + [DuplicateThread(n)];
      }
      assert ids[..n + 1] == ids[..n] + [ids[n]];
      seen := seen + {ids[n]};
    }
    assert ids[..|ids|] == ids;
  }

  lemma RepeatsStep(failures: seq<Refusal>, ids: seq<string>, n: nat)
    requires n < |ids| && RepeatsFound(failures, ids, n)
    ensures RepeatsFound(if ids[n] in ids[..n] then failures + [DuplicateThread(n)] else failures, ids, n + 1)
  {
  }

  method CheckCounts(s: Submission) returns (failures: seq<Refusal>)
    ensures failures == [] <==> Distinct(s.ThreadIds()) && s.threadCount == |s.items|
    ensures forall i: nat :: DuplicateThread(i) in failures <==> i < |s.items| && s.ThreadIds()[i] in s.ThreadIds()[..i]
    ensures CountMismatch in failures <==> s.threadCount != |Elements(s.ThreadIds())|
    ensures forall e :: e in failures ==> e.DuplicateThread? || e.CountMismatch?
  {
    var seen;
    failures, seen := FindRepeats(s.ThreadIds());
    DistinctCardinality(s.ThreadIds());
    DistinctExactlyWhen(s.ThreadIds(), failures);
    hide Distinct, Elements;
    if s.threadCount != |seen| {
      failures := failures + [CountMismatch];
    }
  }

  lemma DistinctExactlyWhen(ids: seq<string>, failures: seq<Refusal>)
    requires RepeatsFound(failures, ids, |ids|)
    ensures failures == [] <==> Distinct(ids)
  {
    if failures == [] {
      forall i, j | 0 <= i < j < |ids|
        ensures ids[i] != ids[j]
      {
        assert DuplicateThread(j) !in failures && ids[..j][i] == ids[i];
      }
    } else {
      assert failures[0] in failures;
    }
  }

  /** The failures are the entries that are unknown, up to one place, or come again, up to another. */
  ghost predicate OrderFaults(failures: seq<Refusal>, ids: seq<string>, order: seq<string>, n: nat, m: nat)
    requires n <= |order| && m <= |order|
  {
    && (forall i: nat :: OrderUnknownItem(i) in failures <==> i < n && order[i] !in ids)
    && (forall i: nat :: OrderDuplicate(i) in failures <==> i < m && order[i] in order[..i])
    && (forall e :: e in failures ==> e.OrderUnknownItem? || e.OrderDuplicate?)
  }

  lemma UnknownStep(failures: seq<Refusal>, ids: seq<string>, order: seq<string>, n: nat)
    requires n < |order| && OrderFaults(failures, ids, order, n, n)
    ensures OrderFaults(if order[n] !in ids then failures + [OrderUnknownItem(n)] else failures, ids, order, n + 1, n)
  {
  }

  lemma RepeatStep(failures: seq<Refusal>, ids: seq<string>, order: seq<string>, n: nat)
    requires n < |order| && OrderFaults(failures, ids, order, n + 1, n)
    ensures OrderFaults(if order[n] in order[..n] then failures + [OrderDuplicate(n)] else failures, ids, order, n + 1, n + 1)
  {
  }

  method CheckEntries(ids: seq<string>, order: seq<string>) returns (failures: seq<Refusal>, seen: set<string>)
    ensures OrderFaults(failures, ids, order, |order|, |order|) && seen == Elements(order)
  {
    failures, seen := [], {};
    for n := 0 to |order|
      invariant seen == Elements(order[..n]) && OrderFaults(failures, ids, order, n, n)
    {
      hide OrderFaults;
      UnknownStep(failures, ids, order, n);
      if order[n] !in ids {
        failures := failures + [OrderUnknownItem(n)];
      }
      RepeatStep(failures, ids, order, n);
      if order[n] in seen {
        failures := failures + [OrderDuplicate(n)];
      }
      assert order[..n + 1] == order[..n] + [order[n]];
      seen := seen + {order[n]};
    }
    assert order[..|order|] == order;
  }

  method CheckOrder(c: PhaseConfig, s: Submission) returns (failures: seq<Refusal>)
    ensures Distinct(s.ThreadIds()) ==> (failures == [] <==> OrderHolds(c, s))
    ensures forall i: nat :: OrderUnknownItem(i) in failures <==>
                               c.orderRequired && i < |s.recommendedOrder| && s.recommendedOrder[i] !in s.ThreadIds()
    ensures forall i: nat :: OrderDuplicate(i) in failures <==>
                               c.orderRequired && i < |s.recommendedOrder| && s.recommendedOrder[i] in s.recommendedOrder[..i]
    ensures OrderIncomplete in failures <==> c.orderRequired && exists t :: t in s.ThreadIds() && t !in s.recommendedOrder
    ensures forall e :: e in failures ==> e.OrderUnknownItem? || e.OrderDuplicate? || e.OrderIncomplete?
  {
    if !c.orderRequired {
      return [];
    }
    var seen;
    failures, seen := CheckEntries(s.ThreadIds(), s.recommendedOrder);
    var missing := Elements(s.ThreadIds()) - seen;
    assert forall t :: t in missing <==> t in s.ThreadIds() && t !in s.recommendedOrder;
    if Distinct(s.ThreadIds()) {
      OrderExactlyWhen(s.ThreadIds(), s.recommendedOrder, failures);
    }
    hide Distinct, Elements;
    if missing != {} {
      failures := failures + [OrderIncomplete];
    }
  }

  lemma OrderExactlyWhen(ids: seq<string>, order: seq<string>, found: seq<Refusal>)
    requires Distinct(ids)
    requires OrderFaults(found, ids, order, |order|, |order|)
    ensures found == [] && (forall t :: t in ids ==> t in order) <==> multiset(order) == multiset(ids)
  {
    DistinctPermutation(order, ids);
    SomethingFound(found);
    if found == [] {
      forall i, j | 0 <= i < j < |order|
        ensures order[i] != order[j]
      {
        assert OrderDuplicate(j) !in found && order[..j][i] == order[i];
      }
      forall i | 0 <= i < |order|
        ensures order[i] in ids
      {
        assert OrderUnknownItem(i) !in found;
      }
    }
    if Distinct(order) && forall x :: x in order <==> x in ids {
      forall i: nat | i < |order|
        ensures order[i] in ids && order[i] !in order[..i]
      {
        assert order[i] in order;
        assert forall k :: 0 <= k < i ==> order[..i][k] == order[k];
      }
    }
  }

  lemma SomethingFound(found: seq<Refusal>)
    requires forall e :: e in found ==> e.OrderUnknownItem? || e.OrderDuplicate?
    ensures found != [] ==> exists i: nat :: OrderUnknownItem(i) in found || OrderDuplicate(i) in found
  {
    if found != [] {
      var e := found[0];
      assert e in found;
      if e.OrderDuplicate? {
        assert OrderDuplicate(e.index) in found;
      } else {
        assert OrderUnknownItem(e.index) in found;
      }
    }
  }

  method CheckReview(r: Standing, c: PhaseConfig, s: Submission) returns (failures: seq<Refusal>)
    ensures forall f :: f in failures <==> IsReviewFault(r, c, s, f)
  {
    failures := [];
    if r.status != InProgress {
      failures := failures + [ReviewNotActive];
    }
    if r.phase == Done {
      failures := failures + [WrongPhase];
    } else if r.current != Some(EMAIL_REVIEW) {
      failures := failures + [WrongPhase];
    }
    if s.playbookVersionId != r.revisionId {
      failures := failures + [StalePlaybookVersion];
    }
    if c.source.Some? {
      if s.source.app != c.source.value.app {
        failures := failures + [WrongScope];
      }
      if s.source.mailboxScope != c.source.value.mailboxScope {
        failures := failures + [WrongScope];
      }
    }
    if c.catchAllRequired && !c.HasCatchAll() {
      failures := failures + [NoCatchAllGroup];
    }
  }

  lemma FaultlessExactlyWhen(r: Standing, c: PhaseConfig, s: Submission)
    requires Distinct(s.ThreadIds()) && s.threadCount == |s.items| && ItemsHold(c, s.items) && OrderHolds(c, s)
    ensures Acceptable(r, c, s) <==> forall f :: !IsReviewFault(r, c, s, f)
  {
    hide Distinct, ItemsHold, OrderHolds;
    if forall f :: !IsReviewFault(r, c, s, f) {
      assert !IsReviewFault(r, c, s, ReviewNotActive) && !IsReviewFault(r, c, s, WrongPhase);
      assert !IsReviewFault(r, c, s, StalePlaybookVersion) && !IsReviewFault(r, c, s, WrongScope);
      assert !IsReviewFault(r, c, s, NoCatchAllGroup);
    }
  }

  /** Every fault is reported, and none exactly when the submission may be recorded; one is enough to refuse it whole. */
  method CheckSubmission(r: Standing, c: PhaseConfig, s: Submission) returns (failures: seq<Refusal>)
    ensures forall f :: f in failures <==> IsFault(r, c, s, f)
    ensures failures == [] <==> Acceptable(r, c, s)
  {
    var review := CheckReview(r, c, s);
    var items := CheckItems(c, s.items);
    var counts := CheckCounts(s);
    var order := CheckOrder(c, s);
    failures := review + items + counts + order;
    Joined(r, c, s, review, items, counts, order);
    hide Stated, OrderHolds, ItemsHold, Distinct, IsFault, IsReviewFault;
    if items == [] && counts == [] && order == [] {
      FaultlessExactlyWhen(r, c, s);
      if review != [] {
        assert review[0] in review;
      }
    }
  }

  lemma Joined(r: Standing, c: PhaseConfig, s: Submission,
               review: seq<Refusal>, items: seq<Refusal>, counts: seq<Refusal>, order: seq<Refusal>)
    requires forall f :: f in review <==> IsReviewFault(r, c, s, f)
    requires forall i: nat :: UnknownGroup(i) in items <==> i < |s.items| && !c.HasGroup(s.items[i].groupKey)
    requires forall i: nat, f :: MissingField(i, f) in items <==>
                               i < |s.items| && c.Requires(f) && !Stated(s.items[i].FieldValue(f))
    requires forall e :: e in items ==> e.UnknownGroup? || e.MissingField?
    requires forall i: nat :: DuplicateThread(i) in counts <==> i < |s.items| && s.ThreadIds()[i] in s.ThreadIds()[..i]
    requires CountMismatch in counts <==> s.threadCount != |Elements(s.ThreadIds())|
    requires forall e :: e in counts ==> e.DuplicateThread? || e.CountMismatch?
    requires forall i: nat :: OrderUnknownItem(i) in order <==>
                                c.orderRequired && i < |s.recommendedOrder| && s.recommendedOrder[i] !in s.ThreadIds()
    requires forall i: nat :: OrderDuplicate(i) in order <==>
                                c.orderRequired && i < |s.recommendedOrder| && s.recommendedOrder[i] in s.recommendedOrder[..i]
    requires OrderIncomplete in order <==> c.orderRequired && exists t :: t in s.ThreadIds() && t !in s.recommendedOrder
    requires forall e :: e in order ==> e.OrderUnknownItem? || e.OrderDuplicate? || e.OrderIncomplete?
    ensures forall f :: f in review + items + counts + order <==> IsFault(r, c, s, f)
  {
    hide Stated;
    forall f
      ensures f in review + items + counts + order <==> IsFault(r, c, s, f)
    {
      if f.UnknownGroup? {
        assert UnknownGroup(f.index) in items <==> IsFault(r, c, s, f);
      } else if f.MissingField? {
        assert MissingField(f.index, f.field) in items <==> IsFault(r, c, s, f);
      } else if f.DuplicateThread? {
        assert DuplicateThread(f.index) in counts <==> IsFault(r, c, s, f);
      } else if f.OrderUnknownItem? {
        assert OrderUnknownItem(f.index) in order <==> IsFault(r, c, s, f);
      } else if f.OrderDuplicate? {
        assert OrderDuplicate(f.index) in order <==> IsFault(r, c, s, f);
      }
    }
  }

  // ---------------------------------------------------------------- what is stored

  /** The last place a thread has in the order, counting from one, as a dictionary keeps it. */
  function Position(order: seq<string>, thread: string): (p: Option<nat>)
    ensures p.None? <==> thread !in order
    ensures p.Some? ==> 1 <= p.value <= |order| && order[p.value - 1] == thread
  {
    if order == [] then None
    else if order[|order| - 1] == thread then Some(|order|)
    else
      assert order == order[..|order| - 1] + [order[|order| - 1]];
      Position(order[..|order| - 1], thread)
  }

  ghost predicate Placed(order: seq<string>, ids: seq<string>, p: nat) {
    exists i :: 0 <= i < |ids| && Position(order, ids[i]) == Some(p)
  }

  lemma PositionsNumber(order: seq<string>, ids: seq<string>)
    requires Distinct(ids) && multiset(order) == multiset(ids)
    ensures forall i :: 0 <= i < |ids| ==>
              Position(order, ids[i]).Some? && 1 <= Position(order, ids[i]).value <= |ids|
    ensures forall i, j :: 0 <= i < j < |ids| ==> Position(order, ids[i]) != Position(order, ids[j])
    ensures forall p: nat :: 1 <= p <= |ids| ==> Placed(order, ids, p)
  {
    DistinctPermutation(order, ids);
    forall p: nat | 1 <= p <= |ids|
      ensures Placed(order, ids, p)
    {
      var t := order[p - 1];
      assert t in order;
      var i :| 0 <= i < |ids| && ids[i] == t;
      var q := Position(order, t).value;
      assert order[q - 1] == order[p - 1];
    }
  }

  /** The positions given to an accepted review's items number them 1 to n. */
  lemma PositionsNumberTheItems(r: Standing, c: PhaseConfig, s: Submission)
    requires Acceptable(r, c, s) && c.orderRequired
    ensures var ids, order := s.ThreadIds(), s.recommendedOrder;
            && (forall i :: 0 <= i < |ids| ==> Position(order, ids[i]).Some? && 1 <= Position(order, ids[i]).value <= |s.items|)
            && (forall i, j :: 0 <= i < j < |ids| ==> Position(order, ids[i]) != Position(order, ids[j]))
            && (forall p: nat :: 1 <= p <= |s.items| ==> Placed(order, ids, p))
  {
    PositionsNumber(s.recommendedOrder, s.ThreadIds());
  }

  // ---------------------------------------------------------------- counts

  function InGroup(items: seq<Item>, key: string): nat {
    if items == [] then 0
    else InGroup(items[..|items| - 1], key) + if items[|items| - 1].groupKey == key then 1 else 0
  }

  function ItemKeys(items: seq<Item>): (keys: seq<string>)
    ensures |keys| == |items| && forall i :: 0 <= i < |keys| ==> keys[i] == items[i].groupKey
  {
    seq(|items|, i requires 0 <= i < |items| => items[i].groupKey)
  }

  /** The groups in the playbook's order, and after them any key an item has besides. */
  function KeyOrder(c: PhaseConfig, items: seq<Item>): seq<string> {
    Once(GroupKeys(OrderedGroups(c.groups)) + ItemKeys(items))
  }

  /** Groups holding nothing are left out unless they are to be shown. */
  function Shown(items: seq<Item>, keys: seq<string>, showEmpty: bool): (r: seq<string>)
    ensures forall k :: k in r <==> k in keys && (showEmpty || InGroup(items, k) > 0)
  {
    if keys == [] then []
    else
      var front, last := keys[..|keys| - 1], keys[|keys| - 1];
      assert keys == front + [last];
      Shown(items, front, showEmpty) + if showEmpty || InGroup(items, last) > 0 then [last] else []
  }

  lemma KeysAsTheyCome(c: PhaseConfig, items: seq<Item>, n: nat)
    requires n < |items|
    ensures var keys := KeyOrder(c, items[..n]);
            KeyOrder(c, items[..n + 1]) == if items[n].groupKey in keys then keys else keys + [items[n].groupKey]
  {
    var front := GroupKeys(OrderedGroups(c.groups)) + ItemKeys(items[..n]);
    assert GroupKeys(OrderedGroups(c.groups)) + ItemKeys(items[..n + 1]) == front + [items[n].groupKey];
    assert (front + [items[n].groupKey])[..|front|] == front;
    hide OrderedGroups, GroupKeys;
  }

  /** How many items each group holds: the keys in the order the dictionary has them, and its counts. */
  method CountsByGroup(items: seq<Item>, c: PhaseConfig) returns (keys: seq<string>, counts: map<string, nat>)
    ensures keys == Shown(items, KeyOrder(c, items), c.showEmptyGroups)
    ensures forall k :: k in counts <==> k in keys
    ensures forall k :: k in counts ==> counts[k] == InGroup(items, k)
  {
    hide KeyOrder;
    keys := KeyOrder(c, []);
    counts := map k | k in keys :: 0;
    assert items[..0] == [];
    for n := 0 to |items|
      invariant keys == KeyOrder(c, items[..n])
      invariant forall k :: k in counts <==> k in keys
      invariant forall k :: k in counts ==> counts[k] == InGroup(items[..n], k)
      invariant forall k :: k !in counts ==> InGroup(items[..n], k) == 0
    {
      assert items[..n + 1][..n] == items[..n];
      KeysAsTheyCome(c, items, n);
      var key := items[n].groupKey;
      if key !in counts {
        keys := keys + [key];
      }
      counts := counts[key := (if key in counts then counts[key] else 0) + 1];
    }
    assert items[..|items|] == items;
    keys := Shown(items, keys, c.showEmptyGroups);
    counts := map k | k in counts && (c.showEmptyGroups || counts[k] > 0) :: counts[k];
  }

  lemma OnceMore(s: seq<string>, x: string)
    ensures Once(s + [x]) == if x in s then Once(s) else Once(s) + [x]
  {
    assert (s + [x])[..|s|] == s;
  }

  lemma {:induction false} OnceOfDistinct(s: seq<string>)
    requires Distinct(s)
    ensures Once(s) == s
  {
    if s != [] {
      DistinctFront(s);
      OnceOfDistinct(s[..|s| - 1]);
      assert s == s[..|s| - 1] + [s[|s| - 1]];
    }
  }

  lemma {:induction false} OnceAndAgain(a: seq<string>, b: seq<string>)
    requires forall x :: x in b ==> x in a
    ensures Once(a + b) == Once(a)
  {
    if b == [] {
      assert a + b == a;
    } else {
      var front, last := b[..|b| - 1], b[|b| - 1];
      OnceAndAgain(a, front);
      OnceMore(a + front, last);
      assert a + b == a + front + [last] && last in b;
    }
  }

  predicate OtherKey(a: GroupConfig, b: GroupConfig) {
    a.key != b.key
  }

  lemma OrderedKeys(groups: seq<GroupConfig>)
    requires Distinct(GroupKeys(groups))
    ensures var ordered := OrderedGroups(groups);
            && Distinct(GroupKeys(ordered)) && Pairwise(ordered, GroupLeq)
            && forall k :: k in GroupKeys(groups) ==> k in GroupKeys(ordered)
  {
    var ordered := OrderedGroups(groups);
    forall i, j | 0 <= i < j < |groups|
      ensures OtherKey(groups[i], groups[j])
    {
      assert GroupKeys(groups)[i] != GroupKeys(groups)[j];
    }
    SortKeepsPairwise(groups, GroupLeq, OtherKey);
    SortSorts(groups, GroupLeq, OtherKey);
    MembersOf(ordered, groups);
    hide StableSort, OrderedGroups;
    forall k | k in GroupKeys(groups)
      ensures k in GroupKeys(ordered)
    {
      var g :| g in groups && g.key == k;
      var n :| 0 <= n < |ordered| && ordered[n] == g;
      assert GroupKeys(ordered)[n] == k;
    }
    forall i, j | 0 <= i < j < |ordered|
      ensures GroupKeys(ordered)[i] != GroupKeys(ordered)[j]
    {
      assert OtherKey(ordered[i], ordered[j]);
    }
  }

  /** So an accepted review's counts come in the playbook's group order. */
  lemma CountsInGroupOrder(c: PhaseConfig, items: seq<Item>)
    requires Distinct(GroupKeys(c.groups)) && ItemsHold(c, items)
    ensures KeyOrder(c, items) == GroupKeys(OrderedGroups(c.groups))
    ensures Pairwise(OrderedGroups(c.groups), GroupLeq)
  {
    OrderedKeys(c.groups);
    var ordered := OrderedGroups(c.groups);
    hide OrderedGroups, Stated, Distinct;
    forall k | k in ItemKeys(items)
      ensures k in GroupKeys(ordered)
    {
      var i :| 0 <= i < |items| && items[i].groupKey == k;
      assert c.HasGroup(items[i].groupKey);
      var n :| 0 <= n < |c.groups| && c.groups[n].key == k;
      assert GroupKeys(c.groups)[n] == k;
    }
    OnceOfDistinct(GroupKeys(ordered));
    OnceAndAgain(GroupKeys(ordered), ItemKeys(items));
  }

  function Total(items: seq<Item>, keys: seq<string>): nat {
    if keys == [] then 0 else Total(items, keys[..|keys| - 1]) + InGroup(items, keys[|keys| - 1])
  }

  lemma {:induction false} TotalGrows(items: seq<Item>, keys: seq<string>)
    requires items != [] && Distinct(keys)
    ensures Total(items, keys) == Total(items[..|items| - 1], keys) + if items[|items| - 1].groupKey in keys then 1 else 0
  {
    if keys != [] {
      var front, last := keys[..|keys| - 1], keys[|keys| - 1];
      assert keys == front + [last];
      DistinctFront(keys);
      TotalGrows(items, front);
    }
  }

  lemma {:induction false} TotalOfNone(keys: seq<string>)
    ensures Total([], keys) == 0
  {
    if keys != [] {
      TotalOfNone(keys[..|keys| - 1]);
    }
  }

  /** Over a workable playbook's groups, the counts of an accepted review account for every item. */
  lemma {:induction false} CountsAddUp(c: PhaseConfig, items: seq<Item>)
    requires Distinct(GroupKeys(c.groups)) && ItemsHold(c, items)
    ensures Total(items, GroupKeys(c.groups)) == |items|
  {
    if items == [] {
      TotalOfNone(GroupKeys(c.groups));
    } else {
      var front := items[..|items| - 1];
      assert forall i :: 0 <= i < |front| ==> front[i] == items[i];
      CountsAddUp(c, front);
      TotalGrows(items, GroupKeys(c.groups));
      var g :| g in c.groups && g.key == items[|items| - 1].groupKey;
      var k :| 0 <= k < |c.groups| && c.groups[k] == g;
      assert GroupKeys(c.groups)[k] == g.key;
    }
  }
}
