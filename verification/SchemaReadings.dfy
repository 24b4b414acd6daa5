/**
 What a fingerprint sees: an inlined body is read by following paths into the document, jumping
 to the component wherever one is named.
 */
module SchemaReadings {
  import opened Common
  import opened Schema
  import Text

  datatype Hop = Key(name: string) | At(index: nat)

  // ---------------------------------------------------------------- following paths

  datatype Place = Place(node: Json, seen: set<string>)

  /** Where a node leads: past every reference not met before, to a component or to one that stays. */
  function Settled(node: Json, document: Json, seen: set<string>): Place
    decreases |Unseen(node, document, seen)|
  {
    var reference := Get(node, REF);
    if !reference.Words? then Place(node, seen)
    else
      var r := reference.text;
      var component := FindComponent(document, r);
      if r in seen || component == Null then Place(RefTo(r), seen)
      else
        FollowingShrinks(node, document, seen, r);
        Settled(component, document, seen + {r})
  }

  /** What a path of keys and places in lists comes to, jumping at every reference. */
  function Reached(node: Json, document: Json, seen: set<string>, path: seq<Hop>): Option<Json>
    decreases |path|
  {
    var at := Settled(node, document, seen);
    if path == [] then Some(at.node)
    else
      match path[0]
      case Key(k) =>
        if at.node.Object? && k in at.node.fields then Reached(at.node.fields[k], document, at.seen, path[1..]) else None
      case At(i) =>
        if at.node.List? && i < |at.node.items| then Reached(at.node.items[i], document, at.seen, path[1..]) else None
  }

  /** The same path in a value as it stands. */
  function Walk(node: Json, path: seq<Hop>): Option<Json>
    decreases |path|
  {
    if path == [] then Some(node)
    else
      match path[0]
      case Key(k) => if node.Object? && k in node.fields then Walk(node.fields[k], path[1..]) else None
      case At(i) => if node.List? && i < |node.items| then Walk(node.items[i], path[1..]) else None
  }

  /** Alike to look at: the same scalar, a list as long, or an object with the same keys, these aside. */
  predicate Alike(a: Json, b: Json, aside: set<string>) {
    match (a, b)
    case (Object(x), Object(y)) => x.Keys - aside == y.Keys - aside
    case (List(x), List(y)) => |x| == |y|
    case (Object(_), _) => false
    case (List(_), _) => false
    case _ => a == b
  }

  predicate ReadAlike(a: Option<Json>, b: Option<Json>, aside: set<string>) {
    if a.Some? && b.Some? then Alike(a.value, b.value, aside) else a == b
  }

  lemma AlikeChain(x: Option<Json>, y: Option<Json>, z: Option<Json>, aside: set<string>)
    requires ReadAlike(x, y, aside)
    ensures ReadAlike(y, x, aside)
    ensures ReadAlike(y, z, aside) || ReadAlike(y, z, {}) ==> ReadAlike(x, z, aside)
  {
    if x.Some? && y.Some? && z.Some? && x.value.Object? && y.value.Object? && z.value.Object? {
      var a, b, c := x.value.fields.Keys, y.value.fields.Keys, z.value.fields.Keys;
      assert b - {} == b && c - {} == c;
    }
  }

  // ---------------------------------------------------------------- inlining

  /** A node with each of its children inlined where it stands. */
  ghost predicate Spread(inlined: Json, node: Json, document: Json, seen: set<string>) {
    match node
    case Object(fields) =>
      && inlined.Object? && inlined.fields.Keys == fields.Keys
      && forall k :: k in fields ==> inlined.fields[k] == Inline(fields[k], document, seen)
    case List(items) =>
      && inlined.List? && |inlined.items| == |items|
      && forall i :: 0 <= i < |items| ==> inlined.items[i] == Inline(items[i], document, seen)
    case _ => inlined == node
  }

  lemma {:induction false} InlineSpreads(node: Json, document: Json, seen: set<string>)
    ensures var at := Settled(node, document, seen);
            Spread(Inline(node, document, seen), at.node, document, at.seen)
    decreases |Unseen(node, document, seen)|
  {
    var reference := Get(node, REF);
    if reference.Words? {
      var r := reference.text;
      var component := FindComponent(document, r);
      if r in seen || component == Null {
        assert Inline(Words(r), document, seen) == Words(r);
      } else {
        FollowingShrinks(node, document, seen, r);
        InlineSpreads(component, document, seen + {r});
      }
    }
  }

  /**
   For every body and document: at every path the inlined body shows what following the path
   into the document, jumping at each reference not met before, comes to.
   */
  lemma {:induction false} InlinedReadsAsReached(node: Json, document: Json, seen: set<string>, path: seq<Hop>)
    ensures ReadAlike(Walk(Inline(node, document, seen), path), Reached(node, document, seen, path), {})
    decreases |path|
  {
    var inlined, at := Inline(node, document, seen), Settled(node, document, seen);
    InlineSpreads(node, document, seen);
    hide Inline, Settled;
    if path != [] {
      match path[0] {
        case Key(k) =>
          if at.node.Object? && k in at.node.fields {
            assert k in inlined.fields.Keys;
            InlinedReadsAsReached(at.node.fields[k], document, at.seen, path[1..]);
          }
        case At(i) =>
          if at.node.List? && i < |at.node.items| {
            InlinedReadsAsReached(at.node.items[i], document, at.seen, path[1..]);
          }
      }
    }
  }

  // ---------------------------------------------------------------- prose left out

  /** No key on the way stands for prose. */
  predicate AvoidsProseKeys(path: seq<Hop>) {
    forall i :: 0 <= i < |path| && path[i].Key? ==> path[i].name !in PROSE
  }

  lemma {:induction false} StrippedReads(node: Json, path: seq<Hop>)
    ensures if AvoidsProseKeys(path) then ReadAlike(Walk(StripProse(node), path), Walk(node, path), PROSE)
            else Walk(StripProse(node), path).None?
    decreases |path|
  {
    if path != [] {
      assert forall i :: 0 <= i < |path[1..]| ==> path[1..][i] == path[i + 1];
      assert AvoidsProseKeys(path) <==> AvoidsProseKeys(path[1..]) && (path[0].Key? ==> path[0].name !in PROSE);
      hide AvoidsProseKeys;
      match path[0] {
        case Key(k) =>
          if node.Object? && k in node.fields && k !in PROSE {
            StrippedReads(node.fields[k], path[1..]);
          }
        case At(i) =>
          if node.List? && i < |node.items| {
            StrippedReads(node.items[i], path[1..]);
          }
      }
    }
  }

  ghost predicate WalkAlike(a: Json, b: Json) {
    forall path :: ReadAlike(Walk(a, path), Walk(b, path), {})
  }

  lemma WalkAlikeBelow(a: Json, b: Json, hop: Hop)
    requires WalkAlike(a, b) && Walk(a, [hop]).Some? && Walk(b, [hop]).Some?
    ensures WalkAlike(Walk(a, [hop]).value, Walk(b, [hop]).value)
  {
    forall path
      ensures ReadAlike(Walk(Walk(a, [hop]).value, path), Walk(Walk(b, [hop]).value, path), {})
    {
      WalkOn(a, hop, path);
      WalkOn(b, hop, path);
      assert ReadAlike(Walk(a, [hop] + path), Walk(b, [hop] + path), {});
    }
  }

  lemma WalkOn(node: Json, hop: Hop, path: seq<Hop>)
    requires Walk(node, [hop]).Some?
    ensures Walk(node, [hop] + path) == Walk(Walk(node, [hop]).value, path)
  {
    assert ([hop] + path)[1..] == path && [hop][1..] == [];
  }

  /** Values that show the same at every path are the same. */
  lemma {:induction false} AlikeEverywhereIsEqual(a: Json, b: Json)
    requires WalkAlike(a, b)
    ensures a == b
    decreases a
  {
    assert ReadAlike(Walk(a, []), Walk(b, []), {});
    match (a, b) {
      case (Object(x), Object(y)) =>
        assert x.Keys - {} == x.Keys && y.Keys - {} == y.Keys;
        forall k | k in x
          ensures k in y && x[k] == y[k]
        {
          assert k in x.Keys && k in y.Keys;
          OneHop(a, Key(k));
          OneHop(b, Key(k));
          WalkAlikeBelow(a, b, Key(k));
          AlikeEverywhereIsEqual(x[k], y[k]);
        }
        assert x == y;
      case (List(x), List(y)) =>
        forall i: nat | i < |x|
          ensures x[i] == y[i]
        {
          OneHop(a, At(i));
          OneHop(b, At(i));
          WalkAlikeBelow(a, b, At(i));
          AlikeEverywhereIsEqual(x[i], y[i]);
        }
      case _ =>
    }
  }

  lemma OneHop(node: Json, hop: Hop)
    ensures hop.Key? && node.Object? && hop.name in node.fields ==> Walk(node, [hop]) == Some(node.fields[hop.name])
    ensures hop.At? && node.List? && hop.index < |node.items| ==> Walk(node, [hop]) == Some(node.items[hop.index])
  {
    assert [hop][1..] == [];
  }

  // ---------------------------------------------------------------- what a fingerprint sees

  function Shape(body: Json, document: Json): Json {
    StripProse(Inline(body, document, {}))
  }

  /** Two bodies come to the same wherever a path leads that passes no prose key. */
  ghost predicate ReachAlike(body: Json, document: Json, other: Json, document': Json) {
    forall path :: AvoidsProseKeys(path) ==>
      ReadAlike(Reached(body, document, {}, path), Reached(other, document', {}, path), PROSE)
  }

  lemma ShapeReads(body: Json, document: Json, path: seq<Hop>)
    ensures if AvoidsProseKeys(path) then ReadAlike(Walk(Shape(body, document), path), Reached(body, document, {}, path), PROSE)
            else Walk(Shape(body, document), path).None?
  {
    StrippedReads(Inline(body, document, {}), path);
    InlinedReadsAsReached(body, document, {}, path);
    if AvoidsProseKeys(path) {
      AlikeChain(Walk(Shape(body, document), path), Walk(Inline(body, document, {}), path),
                 Reached(body, document, {}, path), PROSE);
    }
    hide Inline, StripProse, Walk, Reached, AvoidsProseKeys, ReadAlike;
  }

  /** A shape shows no prose keys of its own, so looking past them is looking. */
  lemma {:induction false} ShapeIsBare(node: Json, path: seq<Hop>)
    ensures var at := Walk(StripProse(node), path);
            at.Some? && at.value.Object? ==> at.value.fields.Keys !! PROSE
    decreases |path|
  {
    if path != [] {
      match path[0] {
        case Key(k) =>
          if node.Object? && k in node.fields && k !in PROSE {
            ShapeIsBare(node.fields[k], path[1..]);
          }
        case At(i) =>
          if node.List? && i < |node.items| {
            ShapeIsBare(node.items[i], path[1..]);
          }
      }
    }
  }

  lemma BareAlike(x: Option<Json>, y: Option<Json>)
    requires ReadAlike(x, y, PROSE)
    requires x.Some? && x.value.Object? ==> x.value.fields.Keys !! PROSE
    requires y.Some? && y.value.Object? ==> y.value.fields.Keys !! PROSE
    ensures ReadAlike(x, y, {})
  {
    if x.Some? && y.Some? && x.value.Object? && y.value.Object? {
      var a, b := x.value.fields.Keys, y.value.fields.Keys;
      assert a - PROSE == a && b - PROSE == b;
    }
  }

  lemma SameShapeReads(body: Json, document: Json, other: Json, document': Json, path: seq<Hop>)
    requires Shape(body, document) == Shape(other, document') && AvoidsProseKeys(path)
    ensures ReadAlike(Reached(body, document, {}, path), Reached(other, document', {}, path), PROSE)
  {
    ShapeReads(body, document, path);
    ShapeReads(other, document', path);
    hide *;
    var x, y, z := Reached(body, document, {}, path), Walk(Shape(body, document), path), Reached(other, document', {}, path);
    AlikeChain(y, x, y, PROSE);
    AlikeChain(x, y, z, PROSE);
  }

  lemma SameReachedShows(body: Json, document: Json, other: Json, document': Json, path: seq<Hop>)
    requires ReachAlike(body, document, other, document')
    ensures ReadAlike(Walk(Shape(body, document), path), Walk(Shape(other, document'), path), {})
  {
    var a, b := Walk(Shape(body, document), path), Walk(Shape(other, document'), path);
    ShapeReads(body, document, path);
    ShapeReads(other, document', path);
    if AvoidsProseKeys(path) {
      var x, y := Reached(body, document, {}, path), Reached(other, document', {}, path);
      assert ReadAlike(x, y, PROSE);
      ShapeIsBare(Inline(body, document, {}), path);
      ShapeIsBare(Inline(other, document', {}), path);
      hide Walk, Reached, ReadAlike, Inline, StripProse;
      AlikeChain(a, x, y, PROSE);
      AlikeChain(b, y, b, PROSE);
      AlikeChain(a, y, b, PROSE);
      BareAlike(a, b);
    } else {
      hide Walk;
    }
  }

  /**
   Two operations have the same shape exactly when their bodies come to the same, prose aside,
   at every path into their documents: a change in any component that is reached is seen.
   */
  lemma SameShapeExactlyWhen(body: Json, document: Json, other: Json, document': Json)
    ensures Shape(body, document) == Shape(other, document') <==> ReachAlike(body, document, other, document')
  {
    hide Reached, AvoidsProseKeys, Shape, ReadAlike, Walk;
    if Shape(body, document) == Shape(other, document') {
      forall path | AvoidsProseKeys(path)
        ensures ReadAlike(Reached(body, document, {}, path), Reached(other, document', {}, path), PROSE)
      {
        SameShapeReads(body, document, other, document', path);
      }
    }
    if ReachAlike(body, document, other, document') {
      forall path
        ensures ReadAlike(Walk(Shape(body, document), path), Walk(Shape(other, document'), path), {})
      {
        SameReachedShows(body, document, other, document', path);
      }
      AlikeEverywhereIsEqual(Shape(body, document), Shape(other, document'));
    }
  }

  /** So a reworded or reshaped contract moves an operation's fingerprint exactly where its callers would see it. */
  lemma OperationChangesExactlyWhen(before: Json, after: Json, path: string, verb: string)
    ensures ShapeOf(before, path, verb) == ShapeOf(after, path, verb)
            <==> ReachAlike(BodyOf(before, path, verb), before, BodyOf(after, path, verb), after)
  {
    SameShapeExactlyWhen(BodyOf(before, path, verb), before, BodyOf(after, path, verb), after);
    ShapeIs(before, path, verb);
    ShapeIs(after, path, verb);
    hide ReachAlike, ShapeOf, BodyOf;
  }

  /** Two operations share a name exactly when they have the same path and methods that differ in case alone. */
  lemma SharedNameExactlyWhen(path: string, verb: string, path': string, verb': string)
    requires ' ' !in verb && ' ' !in verb'
    ensures Named(path, verb) == Named(path', verb') <==>
              path == path' && |verb| == |verb'|
              && forall i :: 0 <= i < |verb| ==> Text.UpperChar(verb[i]) == Text.UpperChar(verb'[i])
  {
    var name, name' := Named(path, verb), Named(path', verb');
    assert name[|verb|] == ' ' && name'[|verb'|] == ' ';
    assert forall i :: 0 <= i < |verb| ==> name[i] == Text.UpperChar(verb[i]);
    assert forall i :: 0 <= i < |verb'| ==> name'[i] == Text.UpperChar(verb'[i]);
    assert name[|verb| + 1..] == path && name'[|verb'| + 1..] == path';
    if path == path' && |verb| == |verb'| {
      assert forall i :: 0 <= i < |verb| && name[i] != name'[i] ==> Text.UpperChar(verb[i]) != Text.UpperChar(verb'[i]);
      assert Text.Upper(verb) == Text.Upper(verb') || exists i :: 0 <= i < |verb| && name[i] != name'[i];
    }
  }
}
