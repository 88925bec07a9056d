/** Two concrete documents and what the model yields on them: a wrapper
    element between two actions, and a small workflow translated by a stub
    backend. */
module Scenarios {
  import opened Wrappers
  import opened ElementTree
  import opened ActionExtractor
  import opened Translation
  import opened Introspector

  /** `root -> A -> wrapper -> B` */
  function NestedDoc(): (r: Document) {
    [ Element("Workflow", map[], None, [1]),
      Element(ActionTag, map["id" := "A"], None, [2]),
      Element("ChildActivities", map[], None, [3]),
      Element(ActionTag, map["id" := "B"], None, []) ]
  }

  lemma NestedDocWellFormed()
    ensures WellFormed(NestedDoc())
  {
    var doc := NestedDoc();
    forall p: nat, c: nat | IsChild(doc, p, c) ensures c == p + 1 {
      assert p == 0 || p == 1 || p == 2;
    }
    forall c: nat | 0 < c < |doc| ensures HasParent(doc, c) {
      assert IsChild(doc, c - 1, c);
    }
  }

  /** Parent resolution looks at the immediate parent only: B, whose parent
      is a wrapper, resolves to `'root'` and not to A's id. */
  lemma WrapperHidesEnclosingAction()
    ensures WellFormed(NestedDoc())
    ensures FindParentAction(NestedDoc(), ParentMap(NestedDoc()), 3) == RootId
    ensures FindParentAction(NestedDoc(), ParentMap(NestedDoc()), 2) == "A"
    ensures FindParentAction(NestedDoc(), ParentMap(NestedDoc()), 1) == RootId
  {
    NestedDocWellFormed();
    var doc := NestedDoc();
    FindParentOfChild(doc, 2, 3);
    FindParentOfChild(doc, 1, 2);
    FindParentOfChild(doc, 0, 1);
  }

  /** A root, an action `outer` with two properties, and an action `inner`
      nested directly inside it. */
  function SmallDoc(): (r: Document) {
    [ Element("Workflow", map[], None, [1]),
      Element(ActionTag, map["id" := "outer", "name" := "Outer"], None, [2, 3, 4]),
      Element(PropertyTag, map["name" := "a"], Some("1"), []),
      Element(PropertyTag, map["name" := "b"], Some("2"), []),
      Element(ActionTag, map["id" := "inner"], None, []) ]
  }

  lemma SmallDocWellFormed()
    ensures WellFormed(SmallDoc())
  {
    var doc := SmallDoc();
    forall p: nat, c: nat | IsChild(doc, p, c) ensures p == if c == 1 then 0 else 1 {
      assert p == 0 || p == 1;
    }
    forall c: nat | 0 < c < |doc| ensures HasParent(doc, c) {
      assert IsChild(doc, if c == 1 then 0 else 1, c);
    }
  }

  lemma SmallDocLeaves()
    ensures Subtree(SmallDoc(), 2) == [2]
    ensures Subtree(SmallDoc(), 3) == [3]
    ensures Subtree(SmallDoc(), 4) == [4]
  {
  }

  lemma SmallDocOuterForest()
    ensures Descendants(SmallDoc(), 1) == [2, 3, 4]
  {
    var doc := SmallDoc();
    SmallDocLeaves();
    assert Forest(doc, 1, 3) == [];
    assert Forest(doc, 1, 2) == [4];
    assert Forest(doc, 1, 1) == [3, 4];
  }

  lemma SmallDocRootForest()
    ensures Descendants(SmallDoc(), 0) == [1, 2, 3, 4]
  {
    var doc := SmallDoc();
    SmallDocOuterForest();
    assert Subtree(doc, 1) == [1, 2, 3, 4];
    assert Forest(doc, 0, 1) == [];
  }

  lemma SmallDocActionTags()
    ensures WithTag(SmallDoc(), [1, 2, 3, 4], ActionTag) == [1, 4]
  {
    var doc := SmallDoc();
    assert WithTag(doc, [4], ActionTag) == [4];
    assert WithTag(doc, [3, 4], ActionTag) == [4];
    assert WithTag(doc, [2, 3, 4], ActionTag) == [4];
  }

  lemma SmallDocActions()
    ensures Actions(SmallDoc()) == [1, 4]
  {
    SmallDocRootForest();
    SmallDocActionTags();
  }

  lemma SmallDocPropertyTags()
    ensures WithTag(SmallDoc(), [2, 3, 4], PropertyTag) == [2, 3]
  {
    var doc := SmallDoc();
    assert WithTag(doc, [4], PropertyTag) == [];
    assert WithTag(doc, [3, 4], PropertyTag) == [3];
  }

  lemma SmallDocProperties()
    ensures FindAll(SmallDoc(), 1, PropertyTag) == [2, 3]
  {
    SmallDocOuterForest();
    SmallDocPropertyTags();
  }

  /** The outer action's record: both properties, by name. */
  lemma SmallDocOuterData()
    ensures ActionDataOf(SmallDoc(), 1) == ActionData("outer", "Outer", "", map["a" := "1", "b" := "2"])
  {
    SmallDocProperties();
    var doc := SmallDoc();
    assert [2, 3][..1] == [2];
    assert PropertiesOf(doc, [2]) == map["a" := "1"];
  }

  const StubOutput := "{\"stub\": true}"

  /** The stub backend's answer has no surrounding white space ... */
  lemma StubOutputStripped()
    ensures Text.Strip(StubOutput) == StubOutput
  {
    var s := StubOutput;
    assert Text.LeadingSpace(s) == 0;
    assert Text.TrailingSpace(s) == 0;
    assert s[0..|s|] == s;
  }

  /** ... and already is a braced object, so the repair leaves it alone. */
  lemma StubOutputRepaired()
    ensures Repair(StubOutput) == StubOutput
  {
    var s := StubOutput;
    assert Text.IndexOf(s, '{') == 0;
    RepairContent(s);
    assert AfterFirstBrace(s) == s[1..];
  }

  /** A backend that answers `{"stub": true}` to every prompt. */
  function StubEngine(prompt: ActionData -> string, parse: string -> ParseOutcome): (r: Engine) {
    Engine(prompt, p => Some(StubOutput), parse)
  }

  lemma StubTranslates(prompt: ActionData -> string, parse: string -> ParseOutcome, stub: Json, data: ActionData)
    requires parse(StubOutput) == Parsed(stub)
    ensures ProcessSingleAction(StubEngine(prompt, parse), data) == Ok(stub)
  {
    StubOutputStripped();
    StubOutputRepaired();
    assert GenerateResponse(StubEngine(prompt, parse).backend, prompt(data)) == Text.Strip(StubOutput);
  }

  lemma SmallDocOuterParent()
    ensures WellFormed(SmallDoc())
    ensures FindParentAction(SmallDoc(), ParentMap(SmallDoc()), 1) == RootId
  {
    SmallDocWellFormed();
    FindParentOfChild(SmallDoc(), 0, 1);
  }

  lemma SmallDocInnerParent()
    ensures WellFormed(SmallDoc())
    ensures FindParentAction(SmallDoc(), ParentMap(SmallDoc()), 4) == "outer"
  {
    SmallDocWellFormed();
    FindParentOfChild(SmallDoc(), 1, 4);
  }

  lemma SmallDocIds(a: nat)
    requires a == 1 || a == 4
    ensures Get(SmallDoc()[a], "id", "") == if a == 1 then "outer" else "inner"
  {
  }

  lemma SmallDocTranslates(prompt: ActionData -> string, parse: string -> ParseOutcome, stub: Json, a: nat)
    requires parse(StubOutput) == Parsed(stub)
    requires a == 1 || a == 4
    ensures ProcessSingleAction(StubEngine(prompt, parse), ActionDataOf(SmallDoc(), a)) == Ok(stub)
  {
    StubTranslates(prompt, parse, stub, ActionDataOf(SmallDoc(), a));
  }

  lemma SmallDocStep(prompt: ActionData -> string, parse: string -> ParseOutcome, stub: Json, a: nat)
    requires parse(StubOutput) == Parsed(stub)
    requires a == 1 || a == 4
    ensures WellFormed(SmallDoc())
    ensures StepOf(StubEngine(prompt, parse), SmallDoc(), ParentMap(SmallDoc()), a)
            == Step(if a == 1 then "outer" else "inner", if a == 1 then RootId else "outer", Ok(stub))
  {
    if a == 1 { SmallDocOuterParent(); } else { SmallDocInnerParent(); }
    SmallDocIds(a);
    SmallDocTranslates(prompt, parse, stub, a);
  }

  lemma StepsOfTwo(engine: Engine, doc: Document, pm: map<nat, nat>, a: nat, b: nat, s: Step, t: Step)
    requires ChildrenFollow(doc) && IndexesInto(pm, doc) && a < |doc| && b < |doc|
    requires StepOf(engine, doc, pm, a) == s && StepOf(engine, doc, pm, b) == t
    ensures Steps(engine, doc, pm, [a, b]) == [s, t]
  {
    StepsAt(engine, doc, pm, [a, b]);
  }

  lemma SmallDocSteps(prompt: ActionData -> string, parse: string -> ParseOutcome, stub: Json)
    requires parse(StubOutput) == Parsed(stub)
    ensures WellFormed(SmallDoc())
    ensures Steps(StubEngine(prompt, parse), SmallDoc(), ParentMap(SmallDoc()), Actions(SmallDoc()))
            == [Step("outer", RootId, Ok(stub)), Step("inner", "outer", Ok(stub))]
  {
    SmallDocActions();
    SmallDocStep(prompt, parse, stub, 1);
    SmallDocStep(prompt, parse, stub, 4);
    StepsOfTwo(StubEngine(prompt, parse), SmallDoc(), ParentMap(SmallDoc()), 1, 4,
               Step("outer", RootId, Ok(stub)), Step("inner", "outer", Ok(stub)));
  }

  /** Two steps with ids under different parents: both are recorded, and
      each lands in its own parent's list. */
  lemma TwoSteps(s: Step, t: Step)
    requires s.id != "" && t.id != "" && s.id != t.id && s.parentId != t.parentId
    ensures Record(map[], [s, t]) == map[s.id := s.result, t.id := t.result]
    ensures Attach(map[], [s, t]) == map[s.parentId := [TreeEntry(s.id, s.result)],
                                         t.parentId := [TreeEntry(t.id, t.result)]]
  {
    assert [s, t][..1] == [s];
    assert [s][..0] == [];
    assert Record(map[], [s]) == map[s.id := s.result];
    assert Lookup(map[], s.parentId) + [TreeEntry(s.id, s.result)] == [TreeEntry(s.id, s.result)];
    assert Attach(map[], [s]) == map[s.parentId := [TreeEntry(s.id, s.result)]];
    assert Lookup(Attach(map[], [s]), t.parentId) + [TreeEntry(t.id, t.result)] == [TreeEntry(t.id, t.result)];
  }

  /** Starting from empty maps, the small document with the stub backend
      records both actions, `outer` under `'root'` and `inner` under `outer`. */
  lemma EndToEnd(prompt: ActionData -> string, parse: string -> ParseOutcome, stub: Json)
    requires parse(StubOutput) == Parsed(stub)
    ensures WellFormed(SmallDoc())
    ensures var steps := Steps(StubEngine(prompt, parse), SmallDoc(), ParentMap(SmallDoc()), Actions(SmallDoc()));
      && Record(map[], steps) == map["outer" := Ok(stub), "inner" := Ok(stub)]
      && Attach(map[], steps) == map[RootId := [TreeEntry("outer", Ok(stub))],
                                     "outer" := [TreeEntry("inner", Ok(stub))]]
  {
    SmallDocSteps(prompt, parse, stub);
    assert RootId[0] != "outer"[0] && "outer"[0] != "inner"[0];
    TwoSteps(Step("outer", RootId, Ok(stub)), Step("inner", "outer", Ok(stub)));
  }
}
