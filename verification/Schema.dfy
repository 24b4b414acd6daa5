/** The shape of a request body: references resolved into it, and its wording left out. */
module Schema {
  import opened Common
  import opened Text

  datatype Json =
    | Null
    | Boolean(truth: bool)
    | Number(number: real)
    | Words(text: string)
    | List(items: seq<Json>)
    | Object(fields: map<string, Json>)

  const REF := "$ref"
  const PROSE := {"description", "summary", "example", "examples"}

  function Get(node: Json, key: string): Json {
    if node.Object? && key in node.fields then node.fields[key] else Null
  }

  // ---------------------------------------------------------------- references

  /** `text.split(separator)`: always at least one piece. */
  function Split(text: string, separator: char): (r: seq<string>)
    ensures r != []
  {
    if text == "" then [""]
    else
      var rest := Split(text[1..], separator);
      if text[0] == separator then [""] + rest else [[text[0]] + rest[0]] + rest[1..]
  }

  function Steps(reference: string): seq<string>
    requires StartsWith(reference, "#/")
  {
    Split(reference[2..], '/')
  }

  function Follow(found: Json, steps: seq<string>): Json
    decreases |steps|
  {
    if steps == [] then found
    else if !found.Object? then Null
    else Follow(Get(found, steps[0]), steps[1..])
  }

  /** `Null` where the reference names nothing; a component that is null counts as nothing. */
  function FindComponent(document: Json, reference: string): Json {
    if StartsWith(reference, "#/") then Follow(document, Steps(reference)) else Null
  }

  method LookUp(document: Json, reference: string) returns (found: Json)
    ensures found == FindComponent(document, reference)
  {
    if !StartsWith(reference, "#/") {
      return Null;
    }
    found := document;
    var steps := Steps(reference);
    for n := 0 to |steps|
      invariant Follow(document, steps) == Follow(found, steps[n..])
    {
      if !found.Object? {
        return Null;
      }
      found := Get(found, steps[n]);
      assert steps[n..][1..] == steps[n + 1..];
    }
  }

  /** Every reference named anywhere inside. */
  function Refs(node: Json): set<string> {
    match node
    case List(items) => set i, r | 0 <= i < |items| && r in Refs(items[i]) :: r
    case Object(fields) =>
      (if Get(node, REF).Words? then {Get(node, REF).text} else {})
      + set k, r | k in fields && r in Refs(fields[k]) :: r
    case _ => {}
  }

  lemma {:induction false} FollowedRefs(found: Json, steps: seq<string>)
    ensures Refs(Follow(found, steps)) <= Refs(found)
    decreases |steps|
  {
    if steps != [] && found.Object? {
      FollowedRefs(Get(found, steps[0]), steps[1..]);
      if steps[0] in found.fields {
        var child := found.fields[steps[0]];
        forall r | r in Refs(child)
          ensures r in Refs(found)
        {
        }
      }
    }
  }

  lemma ComponentRefs(document: Json, reference: string)
    ensures Refs(FindComponent(document, reference)) <= Refs(document)
  {
    if StartsWith(reference, "#/") {
      FollowedRefs(document, Steps(reference));
    }
  }

  // ---------------------------------------------------------------- inlining

  function RefTo(reference: string): Json {
    Object(map[REF := Words(reference)])
  }

  /** The references that could still be followed: what bounds the resolving of a cyclic document. */
  function Unseen(node: Json, document: Json, seen: set<string>): set<string> {
    Refs(document) + Refs(node) - seen
  }

  lemma FollowingShrinks(node: Json, document: Json, seen: set<string>, r: string)
    requires r in Refs(node) && r !in seen
    ensures |Unseen(FindComponent(document, r), document, seen + {r})| < |Unseen(node, document, seen)|
  {
    ComponentRefs(document, r);
    var before, after := Unseen(node, document, seen), Unseen(FindComponent(document, r), document, seen + {r});
    assert after <= before - {r};
    SubsetCardinality(after, before - {r});
  }

  lemma DescendingShrinks(node: Json, child: Json, document: Json, seen: set<string>)
    requires Refs(child) <= Refs(node)
    ensures |Unseen(child, document, seen)| <= |Unseen(node, document, seen)|
  {
    SubsetCardinality(Unseen(child, document, seen), Unseen(node, document, seen));
  }

  lemma FieldRefs(fields: map<string, Json>, k: string)
    requires k in fields
    ensures Refs(fields[k]) <= Refs(Object(fields))
  {
  }

  lemma ItemRefs(items: seq<Json>, i: nat)
    requires i < |items|
    ensures Refs(items[i]) <= Refs(List(items))
  {
  }

  /** The node with every component it names put in its place. */
  function Inline(node: Json, document: Json, seen: set<string>): Json
    decreases |Unseen(node, document, seen)|, node
  {
    match node
    case List(items) =>
      List(seq(|items|, i requires 0 <= i < |items| =>
        ItemRefs(items, i);
        DescendingShrinks(node, items[i], document, seen);
        Inline(items[i], document, seen)))
    case Object(fields) =>
      var reference := Get(node, REF);
      if reference.Words? then
        var r := reference.text;
        if r in seen then RefTo(r)
        else
          var component := FindComponent(document, r);
          if component == Null then RefTo(r)
          else
            FollowingShrinks(node, document, seen, r);
            Inline(component, document, seen + {r})
      else
        Object(map k | k in fields ::
          FieldRefs(fields, k);
          DescendingShrinks(node, fields[k], document, seen);
          Inline(fields[k], document, seen))
    case _ => node
  }

  function StripProse(node: Json): Json {
    match node
    case Object(fields) => Object(map k | k in fields && k !in PROSE :: StripProse(fields[k]))
    case List(items) => List(seq(|items|, i requires 0 <= i < |items| => StripProse(items[i])))
    case _ => node
  }

  // ---------------------------------------------------------------- what is left unresolved

  /** Each reference is named inside the component the one before it resolves to. */
  ghost predicate Path(document: Json, path: seq<string>) {
    forall i :: 0 <= i < |path| - 1 ==> path[i + 1] in Refs(FindComponent(document, path[i]))
  }

  /** Following the reference comes back to it. */
  ghost predicate Cyclic(document: Json, r: string) {
    exists path :: |path| >= 2 && path[0] == r && path[|path| - 1] == r && Path(document, path)
  }

  /** The node is what the last reference of the path led to, or part of it. */
  ghost predicate LedTo(node: Json, document: Json, path: seq<string>) {
    Path(document, path) && (path != [] ==> Refs(node) <= Refs(FindComponent(document, path[|path| - 1])))
  }

  lemma StepLeadsOn(node: Json, document: Json, path: seq<string>, r: string)
    requires LedTo(node, document, path) && r in Refs(node)
    ensures LedTo(FindComponent(document, r), document, path + [r])
    ensures Elements(path + [r]) == Elements(path) + {r}
    ensures r in path ==> Cyclic(document, r)
  {
    hide Refs, FindComponent;
    var longer := path + [r];
    forall i | 0 <= i < |longer| - 1
      ensures longer[i + 1] in Refs(FindComponent(document, longer[i]))
    {
      if i < |path| - 1 {
        assert longer[i] == path[i] && longer[i + 1] == path[i + 1];
      }
    }
    if r in path {
      var k :| 0 <= k < |path| && path[k] == r;
      var cycle := longer[k..];
      assert forall i :: 0 <= i < |cycle| ==> cycle[i] == longer[k + i];
      assert Path(document, cycle);
    }
  }

  /** The text that some reference resolves to. */
  ghost predicate ResolvesToText(node: Json, document: Json, r: string) {
    exists named :: named in Refs(document) + Refs(node) && FindComponent(document, named) == Words(r)
  }

  /** An object comes out as text only where the reference it was led to some. */
  lemma {:induction false} TextCameFrom(node: Json, document: Json, seen: set<string>, r: string)
    requires node.Object? && Inline(node, document, seen) == Words(r)
    ensures ResolvesToText(node, document, r)
    decreases |Unseen(node, document, seen)|
  {
    assert Get(node, REF).Words?;
    var named := Get(node, REF).text;
    var component := FindComponent(document, named);
    assert named in Refs(node);
    if component.Object? {
      ComponentRefs(document, named);
      FollowingShrinks(node, document, seen, named);
      TextCameFrom(component, document, seen + {named}, r);
    }
  }

  ghost predicate Explained(node: Json, document: Json, r: string) {
    FindComponent(document, r) == Null || Cyclic(document, r) || ResolvesToText(node, document, r)
  }

  lemma ExplainedUp(child: Json, node: Json, document: Json, r: string)
    requires Explained(child, document, r) && Refs(child) <= Refs(node) + Refs(document)
    ensures Explained(node, document, r)
  {
    hide Refs, FindComponent, Cyclic;
  }

  /** What inlining leaves of the references on one resolution path. */
  lemma {:induction false} LeftoverOnPath(node: Json, document: Json, path: seq<string>, r: string)
    requires LedTo(node, document, path) && r in Refs(Inline(node, document, Elements(path)))
    ensures Explained(node, document, r)
    decreases |Unseen(node, document, Elements(path))|, node
  {
    if node.List? {
      LeftoverInItems(node, document, path, r);
    } else if node.Object? && Get(node, REF).Words? {
      LeftoverPast(node, document, path, r);
    } else if node.Object? {
      LeftoverInFields(node, document, path, r);
    }
  }

  lemma {:induction false} LeftoverInItems(node: Json, document: Json, path: seq<string>, r: string)
    requires node.List? && LedTo(node, document, path) && r in Refs(Inline(node, document, Elements(path)))
    ensures Explained(node, document, r)
    decreases |Unseen(node, document, Elements(path))|, node, 0
  {
    var i :| 0 <= i < |node.items| && r in Refs(Inline(node.items[i], document, Elements(path)));
    ItemRefs(node.items, i);
    DescendingShrinks(node, node.items[i], document, Elements(path));
    hide Refs, Inline, FindComponent, Unseen, Path;
    LeftoverOnPath(node.items[i], document, path, r);
    ExplainedUp(node.items[i], node, document, r);
  }

  lemma {:induction false} LeftoverPast(node: Json, document: Json, path: seq<string>, r: string)
    requires node.Object? && Get(node, REF).Words?
    requires LedTo(node, document, path) && r in Refs(Inline(node, document, Elements(path)))
    ensures Explained(node, document, r)
    decreases |Unseen(node, document, Elements(path))|, node, 0
  {
    var seen, named := Elements(path), Get(node, REF).text;
    var component := FindComponent(document, named);
    assert named in Refs(node);
    StepLeadsOn(node, document, path, named);
    RefsOfRef(named);
    ComponentRefs(document, named);
    if named !in seen && component != Null {
      assert Inline(node, document, seen) == Inline(component, document, seen + {named});
      FollowingShrinks(node, document, seen, named);
      hide Refs, Inline, FindComponent, Unseen, Path;
      LeftoverOnPath(component, document, path + [named], r);
      ExplainedUp(component, node, document, r);
    } else {
      assert Inline(node, document, seen) == RefTo(named) && r == named;
    }
  }

  lemma {:induction false} LeftoverInFields(node: Json, document: Json, path: seq<string>, r: string)
    requires node.Object? && !Get(node, REF).Words?
    requires LedTo(node, document, path) && r in Refs(Inline(node, document, Elements(path)))
    ensures Explained(node, document, r)
    decreases |Unseen(node, document, Elements(path))|, node, 0
  {
    var seen := Elements(path);
    InlinedField(node.fields, document, seen, r);
    var k :| k in node.fields && (r in Refs(Inline(node.fields[k], document, seen))
                                  || (node.fields[k].Object? && Inline(node.fields[k], document, seen) == Words(r)));
    FieldRefs(node.fields, k);
    DescendingShrinks(node, node.fields[k], document, seen);
    if r in Refs(Inline(node.fields[k], document, seen)) {
      hide Refs, Inline, FindComponent, Unseen, Path;
      LeftoverOnPath(node.fields[k], document, path, r);
    } else {
      TextCameFrom(node.fields[k], document, seen, r);
    }
    ExplainedUp(node.fields[k], node, document, r);
  }

  lemma RefsOfRef(r: string)
    ensures Refs(RefTo(r)) == {r}
  {
    assert Refs(Words(r)) == {};
    assert RefTo(r).fields[REF] == Words(r);
  }

  /** What is left in an object that was no reference is left in a field, or is what its `$ref` member became. */
  lemma InlinedField(fields: map<string, Json>, document: Json, seen: set<string>, r: string)
    requires !Get(Object(fields), REF).Words? && r in Refs(Inline(Object(fields), document, seen))
    ensures exists k :: k in fields && (r in Refs(Inline(fields[k], document, seen))
                                        || (fields[k].Object? && Inline(fields[k], document, seen) == Words(r)))
  {
    var inlined := Inline(Object(fields), document, seen);
    if !(Get(inlined, REF).Words? && Get(inlined, REF).text == r) {
      var k :| k in inlined.fields && r in Refs(inlined.fields[k]);
      assert inlined.fields[k] == Inline(fields[k], document, seen);
    }
  }

  /**
   Every reference left in an inlined body names nothing, or comes back to itself, or was never
   one: it is text that a reference led to, put where a `$ref` member held an object.
   */
  lemma WhatIsLeft(body: Json, document: Json, r: string)
    requires r in Refs(Inline(body, document, {}))
    ensures FindComponent(document, r) == Null || Cyclic(document, r) || ResolvesToText(body, document, r)
  {
    assert Elements<string>([]) == {};
    LeftoverOnPath(body, document, [], r);
  }

  ghost predicate Unfollowable(document: Json, r: string) {
    FindComponent(document, r) == Null || Cyclic(document, r)
  }

  /** A `$ref` member holding a reference to text takes the text in its place. */
  lemma TextBecomesReference(document: Json, named: string, r: string)
    requires FindComponent(document, named) == Words(r)
    ensures r in Refs(Inline(Object(map[REF := RefTo(named)]), document, {}))
    ensures Refs(Object(map[REF := RefTo(named)])) == {named}
  {
    var body := Object(map[REF := RefTo(named)]);
    RefsOfRef(named);
    assert Inline(Words(r), document, {named}) == Words(r);
    assert Inline(RefTo(named), document, {}) == Words(r);
    assert Get(Inline(body, document, {}), REF) == Words(r);
  }

  /** Whatever body is made of the document's own references, as its request bodies are. */
  ghost predicate LeavesOnlyUnfollowable(document: Json) {
    forall body, r ::
      Refs(body) <= Refs(document) && r in Refs(Inline(body, document, {})) ==> Unfollowable(document, r)
  }

  /** Text that one of the document's references leads to is itself no reference to follow. */
  ghost predicate TextIsUnfollowable(document: Json) {
    forall named, r :: named in Refs(document) && FindComponent(document, named) == Words(r) ==> Unfollowable(document, r)
  }

  lemma LeftIsUnfollowable(body: Json, document: Json, r: string)
    requires TextIsUnfollowable(document) && Refs(body) <= Refs(document) && r in Refs(Inline(body, document, {}))
    ensures Unfollowable(document, r)
  {
    WhatIsLeft(body, document, r);
    hide FindComponent, Cyclic, Inline, Refs;
  }

  /**
   So inlining a document's bodies leaves only references that name nothing or come back to
   themselves exactly when none of its references leads to text that is a reference to follow.
   */
  lemma LeavesOnlyUnfollowableExactlyWhen(document: Json)
    ensures LeavesOnlyUnfollowable(document) <==> TextIsUnfollowable(document)
  {
    hide Unfollowable, Inline, Refs, FindComponent;
    if TextIsUnfollowable(document) {
      forall body, r | Refs(body) <= Refs(document) && r in Refs(Inline(body, document, {}))
        ensures Unfollowable(document, r)
      {
        LeftIsUnfollowable(body, document, r);
      }
    }
    if LeavesOnlyUnfollowable(document) {
      forall named, r | named in Refs(document) && FindComponent(document, named) == Words(r)
        ensures Unfollowable(document, r)
      {
        TextBecomesReference(document, named, r);
      }
    }
  }

  /** The bodies a fingerprint inlines are made of the document's references. */
  lemma BodyRefs(document: Json, path: string, verb: string)
    ensures Refs(BodyOf(document, path, verb)) <= Refs(document)
  {
    FollowedRefs(document, ["paths", path, verb, "requestBody"]);
  }

  lemma {:induction false} SplitNowhere(text: string, separator: char)
    requires separator !in text
    ensures Split(text, separator) == [text]
  {
    if text != "" {
      assert text[0] in text && forall c :: c in text[1..] ==> c in text;
      SplitNowhere(text[1..], separator);
      assert [text[0]] + text[1..] == text;
    }
  }

  lemma TitleReference(document: Json)
    requires document.Object?
    ensures FindComponent(document, "#/title") == Get(document, "title")
  {
    assert "#/title"[2..] == "title";
    SplitNowhere("title", '/');
    assert ["title"][1..] == [];
  }

  /** A document one of whose request bodies holds this, and whose title is this. */
  function WithBody(body: Json, title: string): Json {
    Object(map["title" := Words(title),
               "paths" := Object(map["/p" := Object(map["post" := Object(map["requestBody" := body])])])])
  }

  lemma LeadsNowhere(document: Json, r: string)
    requires Refs(FindComponent(document, r)) == {}
    ensures !Cyclic(document, r)
  {
    hide Refs, FindComponent;
    forall path | |path| >= 2 && path[0] == r
      ensures !Path(document, path)
    {
      assert path[0 + 1] !in Refs(FindComponent(document, path[0]));
    }
  }

  /** The third case is real: a document's own body keeps a reference that names something and does not come back to itself. */
  lemma TextCanBecomeAReference()
    ensures exists document, path, verb, r ::
              && r in Refs(Inline(BodyOf(document, path, verb), document, {}))
              && FindComponent(document, r) != Null && !Cyclic(document, r)
  {
    var r := "#/title";
    var body := Object(map[REF := RefTo(r)]);
    var document := WithBody(body, r);
    TitleReference(document);
    BodyStepByStep(document, "/p", "post");
    assert BodyOf(document, "/p", "post") == body;
    TextBecomesReference(document, r, r);
    LeadsNowhere(document, r);
  }

  // ---------------------------------------------------------------- prose

  /** The same but for what stands under a prose key, at whatever depth. */
  ghost predicate SameButProse(a: Json, b: Json) {
    match (a, b)
    case (Object(x), Object(y)) =>
      && (forall k :: k !in PROSE ==> (k in x <==> k in y))
      && (forall k :: k !in PROSE && k in x && k in y ==> SameButProse(x[k], y[k]))
    case (List(x), List(y)) => |x| == |y| && forall i :: 0 <= i < |x| ==> SameButProse(x[i], y[i])
    case _ => a == b
  }

  lemma {:induction false} StrippedSame(a: Json, b: Json)
    requires SameButProse(a, b)
    ensures StripProse(a) == StripProse(b)
  {
    match (a, b) {
      case (Object(x), Object(y)) =>
        forall k | k !in PROSE && k in x
          ensures k in y && StripProse(x[k]) == StripProse(y[k])
        {
          StrippedSame(x[k], y[k]);
        }
        assert StripProse(a).fields == StripProse(b).fields;
      case (List(x), List(y)) =>
        forall i | 0 <= i < |x|
          ensures StripProse(x[i]) == StripProse(y[i])
        {
          StrippedSame(x[i], y[i]);
        }
        assert StripProse(a).items == StripProse(b).items;
      case _ =>
    }
  }

  lemma {:induction false} SameStripped(a: Json, b: Json)
    requires StripProse(a) == StripProse(b)
    ensures SameButProse(a, b)
  {
    match (a, b) {
      case (Object(x), Object(y)) =>
        forall k | k !in PROSE
          ensures k in x <==> k in y
        {
          assert k in StripProse(a).fields <==> k in StripProse(b).fields;
        }
        forall k | k !in PROSE && k in x && k in y
          ensures SameButProse(x[k], y[k])
        {
          assert StripProse(a).fields[k] == StripProse(b).fields[k];
          SameStripped(x[k], y[k]);
        }
      case (List(x), List(y)) =>
        assert |StripProse(a).items| == |StripProse(b).items|;
        forall i | 0 <= i < |x|
          ensures SameButProse(x[i], y[i])
        {
          assert StripProse(a).items[i] == StripProse(b).items[i];
          SameStripped(x[i], y[i]);
        }
      case _ =>
    }
  }

  /** Two stripped shapes agree exactly when the shapes differ under prose keys alone. */
  lemma StripsAlikeExactlyWhen(a: Json, b: Json)
    ensures StripProse(a) == StripProse(b) <==> SameButProse(a, b)
  {
    if StripProse(a) == StripProse(b) {
      SameStripped(a, b);
    }
    if SameButProse(a, b) {
      StrippedSame(a, b);
    }
  }

  /** No step of the reference is a prose key. */
  ghost predicate AvoidsProse(r: string) {
    StartsWith(r, "#/") ==> forall step :: step in Steps(r) ==> step !in PROSE
  }

  lemma {:induction false} FollowStripped(found: Json, steps: seq<string>)
    requires forall step :: step in steps ==> step !in PROSE
    ensures StripProse(Follow(found, steps)) == Follow(StripProse(found), steps)
    decreases |steps|
  {
    if steps != [] && found.Object? {
      FollowStripped(Get(found, steps[0]), steps[1..]);
      assert StripProse(Get(found, steps[0])) == Get(StripProse(found), steps[0]);
    }
  }

  lemma ComponentStripped(document: Json, r: string)
    requires AvoidsProse(r)
    ensures StripProse(FindComponent(document, r)) == FindComponent(StripProse(document), r)
    ensures Refs(StripProse(FindComponent(document, r))) <= Refs(StripProse(document))
  {
    if StartsWith(r, "#/") {
      FollowStripped(document, Steps(r));
    }
    ComponentRefs(StripProse(document), r);
  }

  lemma StrippedReference(node: Json)
    requires node.Object?
    ensures Get(StripProse(node), REF).Words? <==> Get(node, REF).Words?
    ensures Get(node, REF).Words? ==> Get(StripProse(node), REF) == Get(node, REF)
    ensures Get(node, REF).Words? ==> Get(node, REF).text in Refs(StripProse(node))
  {
    assert REF !in PROSE;
    if REF in node.fields {
      assert StripProse(node).fields[REF] == StripProse(node.fields[REF]);
    }
  }

  ghost predicate AllAvoidProse(node: Json, document: Json) {
    forall r :: r in Refs(StripProse(node)) + Refs(StripProse(document)) ==> AvoidsProse(r)
  }

  /**
   Rewording changes no shape: where no reference passes through a prose key, documents that
   differ only under such keys inline to shapes that do.
   */
  lemma {:induction false} RewordingKeepsShape(a: Json, b: Json, before: Json, after: Json, seen: set<string>)
    requires StripProse(a) == StripProse(b) && StripProse(before) == StripProse(after)
    requires AllAvoidProse(a, before)
    ensures StripProse(Inline(a, before, seen)) == StripProse(Inline(b, after, seen))
    decreases |Unseen(a, before, seen)|, a
  {
    if a.List? {
      RewordedItems(a, b, before, after, seen);
    } else if a.Object? && Get(a, REF).Words? {
      RewordedReference(a, b, before, after, seen);
    } else if a.Object? {
      RewordedFields(a, b, before, after, seen);
    }
  }

  lemma {:induction false} RewordedItems(a: Json, b: Json, before: Json, after: Json, seen: set<string>)
    requires a.List? && StripProse(a) == StripProse(b) && StripProse(before) == StripProse(after)
    requires AllAvoidProse(a, before)
    ensures StripProse(Inline(a, before, seen)) == StripProse(Inline(b, after, seen))
    decreases |Unseen(a, before, seen)|, a, 0
  {
    assert b.List? && |StripProse(a).items| == |StripProse(b).items|;
    forall i | 0 <= i < |a.items|
      ensures StripProse(Inline(a.items[i], before, seen)) == StripProse(Inline(b.items[i], after, seen))
    {
      assert StripProse(a).items[i] == StripProse(a.items[i]) && StripProse(b).items[i] == StripProse(b.items[i]);
      ItemRefs(a.items, i);
      ItemRefs(StripProse(a).items, i);
      DescendingShrinks(a, a.items[i], before, seen);
      RewordingKeepsShape(a.items[i], b.items[i], before, after, seen);
    }
    assert StripProse(Inline(a, before, seen)).items == StripProse(Inline(b, after, seen)).items;
  }

  lemma {:induction false} RewordedReference(a: Json, b: Json, before: Json, after: Json, seen: set<string>)
    requires a.Object? && Get(a, REF).Words? && StripProse(a) == StripProse(b) && StripProse(before) == StripProse(after)
    requires AllAvoidProse(a, before)
    ensures StripProse(Inline(a, before, seen)) == StripProse(Inline(b, after, seen))
    decreases |Unseen(a, before, seen)|, a, 0
  {
    assert b.Object?;
    StrippedReference(a);
    StrippedReference(b);
    var r := Get(a, REF).text;
    assert Get(b, REF) == Words(r) && AvoidsProse(r);
    ComponentStripped(before, r);
    ComponentStripped(after, r);
    var c, d := FindComponent(before, r), FindComponent(after, r);
    assert c == Null <==> d == Null;
    if r !in seen && c != Null {
      assert r in Refs(a);
      FollowingShrinks(a, before, seen, r);
      RewordingKeepsShape(c, d, before, after, seen + {r});
    }
  }

  lemma FieldsStripAlike(x: map<string, Json>, y: map<string, Json>, k: string, before: Json)
    requires StripProse(Object(x)) == StripProse(Object(y)) && k !in PROSE && k in x
    requires AllAvoidProse(Object(x), before)
    ensures k in y && StripProse(x[k]) == StripProse(y[k]) && AllAvoidProse(x[k], before)
  {
    var stripped := StripProse(Object(x)).fields;
    assert k in stripped && stripped[k] == StripProse(x[k]);
    assert k in StripProse(Object(y)).fields && StripProse(Object(y)).fields[k] == StripProse(y[k]);
    FieldRefs(stripped, k);
  }

  lemma StrippedObjects(x: map<string, Json>, y: map<string, Json>)
    requires forall k :: k !in PROSE && k in x ==> k in y && StripProse(x[k]) == StripProse(y[k])
    requires forall k :: k !in PROSE && k in y ==> k in x
    ensures StripProse(Object(x)) == StripProse(Object(y))
  {
    assert StripProse(Object(x)).fields == StripProse(Object(y)).fields;
  }

  lemma {:induction false} RewordedFields(a: Json, b: Json, before: Json, after: Json, seen: set<string>)
    requires a.Object? && !Get(a, REF).Words? && StripProse(a) == StripProse(b) && StripProse(before) == StripProse(after)
    requires AllAvoidProse(a, before)
    ensures StripProse(Inline(a, before, seen)) == StripProse(Inline(b, after, seen))
    decreases |Unseen(a, before, seen)|, a, 0
  {
    assert b.Object?;
    StrippedReference(a);
    StrippedReference(b);
    var x, y := Inline(a, before, seen).fields, Inline(b, after, seen).fields;
    assert forall k :: k in x <==> k in a.fields;
    assert forall k :: k in y <==> k in b.fields;
    forall k | k !in PROSE && k in x
      ensures k in y && StripProse(x[k]) == StripProse(y[k])
    {
      FieldsStripAlike(a.fields, b.fields, k, before);
      FieldRefs(a.fields, k);
      DescendingShrinks(a, a.fields[k], before, seen);
      RewordingKeepsShape(a.fields[k], b.fields[k], before, after, seen);
    }
    forall k | k !in PROSE && k in y
      ensures k in x
    {
      assert k in StripProse(b).fields && k in StripProse(a).fields;
    }
    StrippedObjects(x, y);
  }

  /** A request that gains a property called `summary` keeps its shape: the change goes unseen. */
  lemma PropertyNamedSummaryIsUnseen(other: map<string, Json>, property: Json, document: Json)
    requires "summary" !in other
    ensures var properties := (fields: map<string, Json>) => Object(map["properties" := Object(fields)]);
            StripProse(properties(other["summary" := property])) == StripProse(properties(other))
  {
    var a, b := Object(other["summary" := property]), Object(other);
    assert StripProse(a).fields == StripProse(b).fields;
    assert StripProse(Object(map["properties" := a])).fields == StripProse(Object(map["properties" := b])).fields;
  }

  // ---------------------------------------------------------------- the contract's operations

  /** The body an operation takes, or `Null` where there is no such operation or it takes none. */
  function BodyOf(document: Json, path: string, verb: string): Json {
    Follow(document, ["paths", path, verb, "requestBody"])
  }

  function ShapeOf(document: Json, path: string, verb: string): Json {
    StripProse(Inline(BodyOf(document, path, verb), document, {}))
  }

  function Named(path: string, verb: string): string {
    Upper(verb) + " " + path
  }

  lemma BodyStepByStep(document: Json, path: string, verb: string)
    ensures BodyOf(document, path, verb) == Get(Get(Get(Get(document, "paths"), path), verb), "requestBody")
  {
    var one, two, three := [path, verb, "requestBody"], [verb, "requestBody"], ["requestBody"];
    var paths := Get(document, "paths");
    var item := Get(paths, path);
    var operation := Get(item, verb);
    FollowOne(document, "paths", one);
    FollowOne(paths, path, two);
    FollowOne(item, verb, three);
    FollowOne(operation, "requestBody", []);
    assert ["paths"] + one == ["paths", path, verb, "requestBody"];
    assert [path] + two == one && [verb] + three == two && ["requestBody"] + [] == three;
    hide Follow;
    assert BodyOf(document, path, verb) == Follow(operation, three);
    assert Follow(Get(operation, "requestBody"), []) == Get(operation, "requestBody") by {
      FollowNone(Get(operation, "requestBody"));
    }
  }

  lemma FollowNone(found: Json)
    ensures Follow(found, []) == found
  {
  }

  lemma FollowOne(found: Json, step: string, rest: seq<string>)
    ensures Follow(found, [step] + rest) == Follow(Get(found, step), rest)
  {
    assert ([step] + rest)[1..] == rest;
    FollowFromNull(rest);
  }

  /** Operations in the order they are visited: by path, and within a path by method. */
  predicate NotAfter(p: string, v: string, path: string, verb: string) {
    if p == path then TextLeq(v, verb) else TextLeq(p, path)
  }

  /** The last operation of this name among those visited. */
  ghost predicate LastNamed(ops: set<(string, string)>, name: string, path: string, verb: string) {
    && (path, verb) in ops && Named(path, verb) == name
    && forall p, v :: (p, v) in ops && Named(p, v) == name ==> NotAfter(p, v, path, verb)
  }

  /** Under each name there is, the shape of the last operation visited that has it. */
  ghost predicate Recorded(document: Json, ops: set<(string, string)>, shapes: map<string, Json>) {
    && (forall name :: name in shapes <==> exists path, verb :: (path, verb) in ops && Named(path, verb) == name)
    && (forall name :: name in shapes ==>
          exists path, verb :: LastNamed(ops, name, path, verb) && shapes[name] == ShapeOf(document, path, verb))
  }

  lemma OneMoreRecorded(document: Json, ops: set<(string, string)>, shapes: map<string, Json>, path: string, verb: string)
    requires Recorded(document, ops, shapes)
    requires forall p, v :: (p, v) in ops ==> NotAfter(p, v, path, verb)
    ensures Recorded(document, ops + {(path, verb)}, shapes[Named(path, verb) := ShapeOf(document, path, verb)])
  {
    hide ShapeOf, Named, NotAfter;
    var more, after := ops + {(path, verb)}, shapes[Named(path, verb) := ShapeOf(document, path, verb)];
    assert NotAfter(path, verb, path, verb) by {
      TextLeqTotal(verb, verb);
      SameOperation(path, verb);
    }
    forall name
      ensures name in after <==> exists p, v :: (p, v) in more && Named(p, v) == name
    {
      if name == Named(path, verb) {
        assert (path, verb) in more;
      } else if name in shapes {
        var p, v :| (p, v) in ops && Named(p, v) == name;
        assert (p, v) in more;
      }
    }
    forall name | name in after
      ensures exists p, v :: LastNamed(more, name, p, v) && after[name] == ShapeOf(document, p, v)
    {
      if name == Named(path, verb) {
        assert LastNamed(more, name, path, verb);
      } else {
        var p, v :| LastNamed(ops, name, p, v) && shapes[name] == ShapeOf(document, p, v);
        assert LastNamed(more, name, p, v);
      }
    }
  }

  lemma SameOperation(path: string, verb: string)
    requires TextLeq(verb, verb)
    ensures NotAfter(path, verb, path, verb)
  {
  }

  lemma LaterOperation(path: string, done: set<string>, ops: set<(string, string)>, before: set<(string, string)>, verb: string)
    requires forall p, v :: (p, v) in before ==> p != path && TextLeq(p, path)
    requires forall p, v :: (p, v) in ops ==> (p, v) in before || (p == path && v in done)
    requires forall v :: v in done ==> TextLeq(v, verb)
    ensures forall p, v :: (p, v) in ops ==> NotAfter(p, v, path, verb)
  {
  }

  method ShapesOfPath(document: Json, path: string, recorded: map<string, Json>, ghost before: set<(string, string)>)
      returns (shapes: map<string, Json>, ghost ops: set<(string, string)>)
    requires Recorded(document, before, recorded)
    requires forall p, v :: (p, v) in before ==> p != path && TextLeq(p, path)
    ensures Recorded(document, ops, shapes)
    ensures forall p, v :: (p, v) in ops <==> (p, v) in before || (p == path && BodyOf(document, p, v) != Null)
  {
    shapes, ops := recorded, before;
    hide Inline, StripProse, Named, Recorded, NotAfter;
    var item := Get(Get(document, "paths"), path);
    forall verb
      ensures BodyOf(document, path, verb) == Get(Get(item, verb), "requestBody")
    {
      BodyStepByStep(document, path, verb);
    }
    if !item.Object? {
      return;
    }
    var todo := item.fields.Keys;
    while todo != {}
      invariant todo <= item.fields.Keys && Recorded(document, ops, shapes)
      invariant forall v, w :: v in item.fields.Keys - todo && w in todo ==> TextLeq(v, w)
      invariant forall p, v :: (p, v) in ops <==>
                  || (p, v) in before
                  || (p == path && v in item.fields.Keys - todo && BodyOf(document, p, v) != Null)
      decreases todo
    {
      hide BodyOf, ShapeOf;
      FirstExists(todo);
      var verb :| First(verb, todo);
      LaterOperation(path, item.fields.Keys - todo, ops, before, verb);
      todo := todo - {verb};
      var body := Get(Get(item, verb), "requestBody");
      if body != Null {
        OneMoreRecorded(document, ops, shapes, path, verb);
        assert ShapeOf(document, path, verb) == StripProse(Inline(body, document, {})) by {
          ShapeIs(document, path, verb);
        }
        shapes := shapes[Named(path, verb) := StripProse(Inline(body, document, {}))];
        ops := ops + {(path, verb)};
      }
    }
  }

  lemma ShapeIs(document: Json, path: string, verb: string)
    ensures ShapeOf(document, path, verb) == StripProse(Inline(BodyOf(document, path, verb), document, {}))
  {
  }

  /**
   Every operation that takes a body is fingerprinted under its name and nothing else is; where
   two share a name, by methods that differ only in case, the last in sorted order is.
   */
  method RequestShapes(document: Json) returns (shapes: map<string, Json>, ghost ops: set<(string, string)>)
    ensures forall path, verb :: (path, verb) in ops <==> BodyOf(document, path, verb) != Null
    ensures forall name :: name in shapes <==> exists path, verb :: BodyOf(document, path, verb) != Null && Named(path, verb) == name
    ensures forall name :: name in shapes ==>
              exists path, verb :: LastNamed(ops, name, path, verb) && shapes[name] == ShapeOf(document, path, verb)
  {
    shapes, ops := map[], {};
    var paths := Get(document, "paths");
    forall path, verb
      ensures BodyOf(document, path, verb) == Get(Get(Get(paths, path), verb), "requestBody")
    {
      BodyStepByStep(document, path, verb);
    }
    if !paths.Object? {
      return;
    }
    hide ShapeOf, Named, BodyOf, NotAfter;
    var todo := paths.fields.Keys;
    while todo != {}
      invariant todo <= paths.fields.Keys && Recorded(document, ops, shapes)
      invariant forall p, q :: p in paths.fields.Keys - todo && q in todo ==> TextLeq(p, q)
      invariant forall p, v :: (p, v) in ops <==> p in paths.fields.Keys - todo && BodyOf(document, p, v) != Null
      decreases todo
    {
      hide Recorded;
      FirstExists(todo);
      var path :| First(path, todo);
      todo := todo - {path};
      shapes, ops := ShapesOfPath(document, path, shapes, ops);
    }
  }

  /** A contract reworded asks the same of a caller: each operation keeps its body and its shape. */
  lemma RewordedContract(before: Json, after: Json, path: string, verb: string)
    requires SameButProse(before, after) && path !in PROSE && verb !in PROSE
    requires forall r :: r in Refs(StripProse(before)) ==> AvoidsProse(r)
    ensures BodyOf(before, path, verb) == Null <==> BodyOf(after, path, verb) == Null
    ensures ShapeOf(before, path, verb) == ShapeOf(after, path, verb)
  {
    var steps := ["paths", path, verb, "requestBody"];
    StripsAlikeExactlyWhen(before, after);
    FollowStripped(before, steps);
    FollowStripped(after, steps);
    FollowedRefs(StripProse(before), steps);
    hide SameButProse, Inline, Refs, AvoidsProse;
    RewordingKeepsShape(BodyOf(before, path, verb), BodyOf(after, path, verb), before, after, {});
  }

  // ---------------------------------------------------------------- RFC 6901, section 4

  /** `~1` is `/` and `~0` is `~`, the first replaced first. */
  function Unescape(token: string): string {
    if token == "" then ""
    else if |token| >= 2 && token[0] == '~' && token[1] == '1' then "/" + Unescape(token[2..])
    else if |token| >= 2 && token[0] == '~' && token[1] == '0' then "~" + Unescape(token[2..])
    else [token[0]] + Unescape(token[1..])
  }

  predicate Digit(c: char) {
    '0' <= c <= '9'
  }

  /** An array index: no leading zero but in `0` itself. */
  predicate IsIndex(token: string) {
    token != "" && (token == "0" || token[0] != '0') && forall c :: c in token ==> Digit(c)
  }

  function IndexOf(token: string): nat
    requires forall c :: c in token ==> Digit(c)
  {
    if token == "" then 0
    else
      assert Digit(token[|token| - 1]) && forall c :: c in token[..|token| - 1] ==> c in token;
      10 * IndexOf(token[..|token| - 1]) + (token[|token| - 1] as int - '0' as int)
  }

  /** Evaluation of a pointer's tokens; `None` is the section's error. */
  function Evaluate(value: Json, tokens: seq<string>): Option<Json>
    decreases |tokens|
  {
    if tokens == [] then Some(value)
    else
      var token := Unescape(tokens[0]);
      match value
      case Object(fields) => if token in fields then Evaluate(fields[token], tokens[1..]) else None
      case List(items) =>
        if IsIndex(token) && IndexOf(token) < |items| then Evaluate(items[IndexOf(token)], tokens[1..]) else None
      case _ => None
  }

  /** Nothing in the token stands for another character. */
  predicate NoEscape(token: string) {
    forall i :: 0 <= i < |token| - 1 && token[i] == '~' ==> token[i + 1] != '0' && token[i + 1] != '1'
  }

  lemma {:induction false} StandsForItselfExactlyWhen(token: string)
    ensures |Unescape(token)| <= |token|
    ensures Unescape(token) == token <==> NoEscape(token)
  {
    if token != "" {
      var rest := token[1..];
      StandsForItselfExactlyWhen(rest);
      assert token == [token[0]] + rest;
      if |token| >= 2 && token[0] == '~' && (token[1] == '1' || token[1] == '0') {
        StandsForItselfExactlyWhen(token[2..]);
      } else {
        assert forall i :: 0 <= i < |rest| ==> rest[i] == token[i + 1];
        assert NoEscape(token) <==> NoEscape(rest) by {
          if NoEscape(rest) {
            forall i | 0 <= i < |token| - 1 && token[i] == '~'
              ensures token[i + 1] != '0' && token[i + 1] != '1'
            {
              if i > 0 {
                assert rest[i - 1] == token[i] && rest[i - 1 + 1] == token[i + 1];
              }
            }
          }
        }
      }
    }
  }

  /** Every value the pointer passes through is an object. */
  predicate ByObjects(value: Json, tokens: seq<string>)
    decreases |tokens|
  {
    tokens == [] || (value.Object? && (tokens[0] in value.fields ==> ByObjects(value.fields[tokens[0]], tokens[1..])))
  }

  lemma {:induction false} FollowEvaluates(value: Json, tokens: seq<string>)
    requires forall t :: t in tokens ==> NoEscape(t)
    ensures Follow(value, tokens)
            == if ByObjects(value, tokens) && Evaluate(value, tokens).Some? then Evaluate(value, tokens).value else Null
    decreases |tokens|
  {
    if tokens != [] {
      assert tokens[0] in tokens && forall t :: t in tokens[1..] ==> t in tokens;
      StandsForItselfExactlyWhen(tokens[0]);
      hide NoEscape, Unescape;
      FollowFromNull(tokens[1..]);
      if value.Object? && tokens[0] in value.fields {
        FollowEvaluates(value.fields[tokens[0]], tokens[1..]);
      }
    }
  }

  lemma FollowFromNull(steps: seq<string>)
    ensures Follow(Null, steps) == Null
  {
  }

  /** One object inside another along the steps, with something at the end. */
  function Nested(steps: seq<string>): Json {
    if steps == [] then Boolean(true) else Object(map[steps[0] := Nested(steps[1..])])
  }

  /** Following the steps literally gets to the end; evaluating them does only where none is an escape. */
  lemma {:induction false} NestedTellsEscapes(steps: seq<string>)
    ensures Follow(Nested(steps), steps) == Boolean(true)
    ensures Evaluate(Nested(steps), steps).Some? ==> forall t :: t in steps ==> NoEscape(t)
  {
    if steps != [] {
      NestedTellsEscapes(steps[1..]);
      StandsForItselfExactlyWhen(steps[0]);
      hide NoEscape, Unescape;
      assert steps == [steps[0]] + steps[1..];
    }
  }

  ghost predicate FoundIsEvaluated(document: Json, reference: string)
    requires StartsWith(reference, "#/")
  {
    var found := FindComponent(document, reference);
    found != Null ==> Evaluate(document, Steps(reference)) == Some(found)
  }

  /**
   A local reference finds, in every document, what its pointer evaluates to, exactly when none
   of its steps holds an escape: the lookup takes `~1` and `~0` literally.
   */
  lemma LookupIsSubsetExactlyWhen(reference: string)
    requires StartsWith(reference, "#/")
    ensures (forall document :: FoundIsEvaluated(document, reference)) <==>
              forall t :: t in Steps(reference) ==> NoEscape(t)
  {
    var steps := Steps(reference);
    hide NoEscape, Evaluate, Steps;
    if forall document :: FoundIsEvaluated(document, reference) {
      NestedTellsEscapes(steps);
      assert FoundIsEvaluated(Nested(steps), reference);
    }
    if forall t :: t in steps ==> NoEscape(t) {
      forall document
        ensures FoundIsEvaluated(document, reference)
      {
        LookupIsEvaluation(document, reference);
      }
    }
  }

  /**
   Such a reference names exactly what the pointer in it evaluates to by way of objects alone;
   where the pointer fails, or passes into an array, it names nothing.
   */
  lemma LookupIsEvaluation(document: Json, reference: string)
    requires StartsWith(reference, "#/") && forall t :: t in Steps(reference) ==> NoEscape(t)
    ensures var tokens := Steps(reference);
            FindComponent(document, reference)
            == if ByObjects(document, tokens) && Evaluate(document, tokens).Some? then Evaluate(document, tokens).value
               else Null
  {
    FollowEvaluates(document, Steps(reference));
  }

  lemma {:induction false} SplitKeeps(text: string, separator: char, c: char)
    requires c !in text
    ensures forall piece :: piece in Split(text, separator) ==> c !in piece
  {
    if text != "" {
      assert text[0] in text && forall d :: d in text[1..] ==> d in text;
      SplitKeeps(text[1..], separator, c);
    }
  }

  /** A reference without a tilde has no escape in any step. */
  lemma NoTildeNoEscape(reference: string)
    requires StartsWith(reference, "#/") && '~' !in reference
    ensures forall t :: t in Steps(reference) ==> NoEscape(t)
  {
    assert forall d :: d in reference[2..] ==> d in reference;
    SplitKeeps(reference[2..], '/', '~');
  }

  /** Where a key holds the characters of an escape, the code finds it and evaluation fails. */
  lemma EscapedKeyIsFound()
    ensures var document, reference := Object(map["a~1b" := Words("x")]), "#/a~1b";
            FindComponent(document, reference) == Words("x") && Evaluate(document, Steps(reference)).None?
  {
    var token := "a~1b";
    assert "#/a~1b"[2..] == token;
    SplitNowhere(token, '/');
    var steps: seq<string> := [token];
    assert |steps[1..]| == 0;
    assert token[1] == '~' && token[1 + 1] == '1' && !NoEscape(token);
    StandsForItselfExactlyWhen(token);
  }
}
