/** The phases of a guided review as configuration, and when a document can be worked. */
module ReviewPlaybook {
  import opened Common
  import opened Sorting

  const SCHEMA_VERSION := 1
  const EMAIL_REVIEW := "email_review"

  datatype PhaseKind = PhaseKind(key: string, implemented: bool)

  const PHASES := [PhaseKind(EMAIL_REVIEW, true), PhaseKind("monday_reconciliation", false),
                   PhaseKind("todo_review", false), PhaseKind("daily_plan", false)]

  function KnownPhase(key: string): Option<PhaseKind> {
    if key == PHASES[0].key then Some(PHASES[0])
    else if key == PHASES[1].key then Some(PHASES[1])
    else if key == PHASES[2].key then Some(PHASES[2])
    else if key == PHASES[3].key then Some(PHASES[3])
    else None
  }

  predicate Implemented(key: string) {
    var kind := KnownPhase(key);
    kind.Some? && kind.value.implemented
  }

  datatype ItemField =
    | SourceThreadId | Subject | Sender | ReceivedAt | GroupKey | Summary | WhyItMatters
    | RecommendedNextAction | RecommendedDisposition | TaskRequired | Urgency | Confidence | Uncertainties

  datatype GroupConfig = GroupConfig(key: string, order: int, catchAll: bool)

  datatype Source = Source(app: string, mailboxScope: string)

  datatype PhaseConfig = PhaseConfig(
    key: string, order: int, source: Option<Source>, groups: seq<GroupConfig>,
    requiredItemFields: seq<ItemField>, showEmptyGroups: bool, orderRequired: bool, catchAllRequired: bool)
  {
    predicate HasGroup(k: string) {
      exists g :: g in groups && g.key == k
    }

    predicate HasCatchAll() {
      exists g :: g in groups && g.catchAll
    }

    /** The two identity fields are required whatever the document says. */
    predicate Requires(f: ItemField) {
      f == SourceThreadId || f == GroupKey || f in requiredItemFields
    }
  }

  datatype Document = Document(schemaVersion: int, phases: seq<PhaseConfig>)

  function PhaseKeys(phases: seq<PhaseConfig>): (keys: seq<string>)
    ensures |keys| == |phases| && forall i :: 0 <= i < |keys| ==> keys[i] == phases[i].key
  {
    seq(|phases|, i requires 0 <= i < |phases| => phases[i].key)
  }

  function PhaseOrders(phases: seq<PhaseConfig>): (orders: seq<int>)
    ensures |orders| == |phases| && forall i :: 0 <= i < |orders| ==> orders[i] == phases[i].order
  {
    seq(|phases|, i requires 0 <= i < |phases| => phases[i].order)
  }

  function GroupKeys(groups: seq<GroupConfig>): (keys: seq<string>)
    ensures |keys| == |groups| && forall i :: 0 <= i < |keys| ==> keys[i] == groups[i].key
  {
    seq(|groups|, i requires 0 <= i < |groups| => groups[i].key)
  }

  function GroupOrders(groups: seq<GroupConfig>): (orders: seq<int>)
    ensures |orders| == |groups| && forall i :: 0 <= i < |orders| ==> orders[i] == groups[i].order
  {
    seq(|groups|, i requires 0 <= i < |groups| => groups[i].order)
  }

  function FindPhase(phases: seq<PhaseConfig>, key: string): (r: Option<PhaseConfig>)
    ensures r.None? <==> key !in PhaseKeys(phases)
    ensures r.Some? ==> r.value in phases && r.value.key == key
  {
    if phases == [] then None
    else if phases[0].key == key then
      assert PhaseKeys(phases)[0] == key;
      Some(phases[0])
    else
      assert PhaseKeys(phases) == [phases[0].key] + PhaseKeys(phases[1..]);
      FindPhase(phases[1..], key)
  }

  predicate OrderLeq(a: PhaseConfig, b: PhaseConfig) {
    a.order <= b.order
  }

  function Ordered(phases: seq<PhaseConfig>): (r: seq<PhaseConfig>)
    ensures multiset(r) == multiset(phases) && |r| == |phases|
  {
    SortElements(phases, OrderLeq);
    StableSort(phases, OrderLeq)
  }

  predicate GroupLeq(a: GroupConfig, b: GroupConfig) {
    a.order <= b.order
  }

  function OrderedGroups(groups: seq<GroupConfig>): (r: seq<GroupConfig>)
    ensures multiset(r) == multiset(groups) && |r| == |groups|
  {
    SortElements(groups, GroupLeq);
    StableSort(groups, GroupLeq)
  }

  // ---------------------------------------------------------------- validation

  datatype Code =
    | UnsupportedSchema | UnknownPhase | DuplicatePhase | DuplicateGroup | AmbiguousOrder
    | NoEmailPhase | NoGroups | NoCatchAll | TwoCatchAlls | NoSource | ConfiguredUnavailable

  ghost predicate OneCatchAll(groups: seq<GroupConfig>) {
    forall i, j :: 0 <= i < j < |groups| ==> !(groups[i].catchAll && groups[j].catchAll)
  }

  /** An implemented phase says what it reads and where things go; any other says nothing. */
  ghost predicate WorkablePhase(p: PhaseConfig) {
    && KnownPhase(p.key).Some?
    && if Implemented(p.key) then
         && p.source.Some? && p.groups != []
         && Distinct(GroupKeys(p.groups)) && Distinct(GroupOrders(p.groups))
         && (p.catchAllRequired ==> p.HasCatchAll()) && OneCatchAll(p.groups)
       else p.source.None? && p.groups == []
  }

  ghost predicate Workable(d: Document) {
    && d.schemaVersion == SCHEMA_VERSION
    && Distinct(PhaseKeys(d.phases)) && Distinct(PhaseOrders(d.phases))
    && EMAIL_REVIEW in PhaseKeys(d.phases)
    && forall p :: p in d.phases ==> WorkablePhase(p)
  }

  method CheckUnique(keys: seq<string>, code: Code) returns (errors: seq<Code>)
    ensures errors == [] <==> Distinct(keys)
    ensures forall e :: e in errors ==> e == code
  {
    errors := [];
    var seen: set<string> := {};
    for n := 0 to |keys|
      invariant forall k :: k in seen <==> k in keys[..n]
      invariant errors == [] <==> Distinct(keys[..n])
      invariant forall e :: e in errors ==> e == code
    {
      var front := keys[..n];
      assert keys[..n + 1] == front + [keys[n]];
      if keys[n] in seen {
        errors := errors + [code];
        var i :| 0 <= i < n && front[i] == keys[n];
        assert keys[..n + 1][i] == keys[..n + 1][n];
      } else {
        assert Distinct(front) <==> Distinct(front + [keys[n]]) by {
          if Distinct(front + [keys[n]]) {
            assert forall i, j :: 0 <= i < j < n ==> (front + [keys[n]])[i] == front[i] && (front + [keys[n]])[j] == front[j];
          }
        }
      }
      seen := seen + {keys[n]};
    }
    assert keys[..|keys|] == keys;
  }

  method CheckOrder(orders: seq<int>) returns (errors: seq<Code>)
    ensures errors == [] <==> Distinct(orders)
    ensures forall e :: e in errors ==> e == AmbiguousOrder
  {
    DistinctCardinality(orders);
    errors := if |Elements(orders)| != |orders| then [AmbiguousOrder] else [];
  }

  function CatchAlls(groups: seq<GroupConfig>): (r: seq<GroupConfig>)
    ensures r == [] <==> forall g :: g in groups ==> !g.catchAll
    ensures |r| <= 1 <==> OneCatchAll(groups)
  {
    if groups == [] then []
    else
      var rest := CatchAlls(groups[1..]);
      assert groups == [groups[0]] + groups[1..];
      assert OneCatchAll(groups) <==> OneCatchAll(groups[1..]) && (groups[0].catchAll ==> rest == []) by {
        assert forall i {:trigger groups[1..][i]} :: 0 <= i < |groups| - 1 ==> groups[1..][i] == groups[i + 1];
        assert forall g :: g in groups[1..] ==> exists i :: 1 <= i < |groups| && groups[i] == g;
      }
      if groups[0].catchAll then [groups[0]] + rest else rest
  }

  method CheckImplementedPhase(p: PhaseConfig) returns (errors: seq<Code>)
    requires Implemented(p.key)
    ensures errors == [] <==> WorkablePhase(p)
    ensures AmbiguousOrder in errors <==> p.groups != [] && !Distinct(GroupOrders(p.groups))
    ensures NoCatchAll in errors <==> p.groups != [] && p.catchAllRequired && !p.HasCatchAll()
  {
    errors := if p.source.None? then [NoSource] else [];
    if p.groups == [] {
      errors := errors + [NoGroups];
      return;
    }
    var keys := CheckUnique(GroupKeys(p.groups), DuplicateGroup);
    var orders := CheckOrder(GroupOrders(p.groups));
    errors := errors + keys + orders;
    var catchAlls := CatchAlls(p.groups);
    if catchAlls == [] && p.catchAllRequired {
      errors := errors + [NoCatchAll];
    }
    if |catchAlls| > 1 {
      errors := errors + [TwoCatchAlls];
    }
    assert orders != [] ==> orders[0] in orders;
  }

  /** No errors exactly when the document can be worked. */
  method ValidateReviewPlaybook(d: Document) returns (errors: seq<Code>)
    ensures errors == [] <==> Workable(d)
  {
    errors := if d.schemaVersion != SCHEMA_VERSION then [UnsupportedSchema] else [];
    var keys := CheckUnique(PhaseKeys(d.phases), DuplicatePhase);
    var orders := CheckOrder(PhaseOrders(d.phases));
    errors := errors + keys + orders;
    ghost var before := errors;
    for n := 0 to |d.phases|
      invariant errors == [] <==> before == [] && forall i :: 0 <= i < n ==> WorkablePhase(d.phases[i])
    {
      var p := d.phases[n];
      var kind := KnownPhase(p.key);
      if kind.None? {
        errors := errors + [UnknownPhase];
      } else if !kind.value.implemented {
        if p.groups != [] || p.source.Some? {
          errors := errors + [ConfiguredUnavailable];
        }
      } else {
        var found := CheckImplementedPhase(p);
        errors := errors + found;
      }
    }
    if FindPhase(d.phases, EMAIL_REVIEW).None? {
      errors := errors + [NoEmailPhase];
    }
  }
}
